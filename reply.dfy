/** The passive replies the official-account server sends back to WeChat:
    an `<xml>` tree whose children are built from nested dictionaries by
    `__form_xml`, starting with the header every reply carries. */
module Reply {
  import opened Wrappers
  import opened Text
  import opened Collections
  import opened Xml

  /** A dictionary value as `__form_xml` sees it: a str/int/float (given
      here as its `str()`), a `(value, isCData)` tuple, a list of
      dictionaries that all fill the same child, a nested dictionary, or
      anything else (an empty child). */
  datatype Field =
    | Scalar(s: string)
    | Pair(s: string, cdata: bool)
    | Siblings(dicts: seq<Dict>)
    | Nested(dict: Dict)
    | Other

  /** One `key: value` item of a dictionary. */
  datatype Entry = Entry(key: string, value: Field)

  /** A dictionary: its items in insertion order. */
  datatype Dict = Dict(items: seq<Entry>)

  /** The sub-element `__form_xml` appends for one item. */
  function ChildOf(en: Entry): (r: Element)
    ensures r.tag == en.key
    ensures r.children != [] ==> r.text == None
    ensures (en.value.Scalar? || en.value.Pair? || en.value.Other?) ==> r.children == []
    decreases en
  {
    match en.value
    case Scalar(s) => Element(en.key, Some(XmlText(s, true)), [])
    case Pair(s, c) => Element(en.key, Some(XmlText(s, c)), [])
    case Siblings(ds) =>
      Element(en.key, None, Flatten(seq(|ds|, j requires 0 <= j < |ds| =>
        seq(|ds[j].items|, i requires 0 <= i < |ds[j].items| => ChildOf(ds[j].items[i])))))
    case Nested(d) =>
      Element(en.key, None, seq(|d.items|, i requires 0 <= i < |d.items| => ChildOf(d.items[i])))
    case Other => Element(en.key, None, [])
  }

  /** The sub-elements appended for a whole dictionary, in its order. */
  function Children(d: Dict): (r: seq<Element>)
    ensures |r| == |d.items| && forall i :: 0 <= i < |d.items| ==> r[i] == ChildOf(d.items[i])
  {
    MapSeq(ChildOf, d.items)
  }

  lemma SiblingsChildren(key: string, ds: seq<Dict>)
    ensures ChildOf(Entry(key, Siblings(ds))).children == Flatten(MapSeq(Children, ds))
  {
    var inner := seq(|ds|, j requires 0 <= j < |ds| =>
      seq(|ds[j].items|, i requires 0 <= i < |ds[j].items| => ChildOf(ds[j].items[i])));
    forall j | 0 <= j < |ds|
      ensures inner[j] == Children(ds[j])
    {
    }
    assert inner == MapSeq(Children, ds);
  }

  /** `__form_xml(element, dataDict)`: one new child per item, appended
      after the element's existing children; nested dictionaries fill the
      new child the same way. */
  method FormXml(element: Element, d: Dict) returns (e: Element)
    ensures e == element.(children := element.children + Children(d))
    decreases d
  {
    var fields := d.items;
    e := element;
    var i := 0;
    while i < |fields|
      invariant 0 <= i <= |fields|
      invariant e == element.(children := element.children + MapSeq(ChildOf, fields[..i]))
    {
      var en := fields[i];
      var sub := Element(en.key, None, []);
      match en.value {
        case Scalar(s) =>
          sub := sub.(text := Some(XmlText(s, true)));
        case Pair(s, c) =>
          sub := sub.(text := Some(XmlText(s, c)));
        case Siblings(ds) =>
          var j := 0;
          while j < |ds|
            invariant 0 <= j <= |ds|
            invariant sub == Element(en.key, None, Flatten(MapSeq(Children, ds[..j])))
          {
            sub := FormXml(sub, ds[j]);
            assert MapSeq(Children, ds[..j + 1]) == MapSeq(Children, ds[..j]) + [Children(ds[j])];
            FlattenSnoc(MapSeq(Children, ds[..j]), Children(ds[j]));
            j := j + 1;
          }
          assert ds[..j] == ds;
          SiblingsChildren(en.key, ds);
        case Nested(inner) =>
          sub := FormXml(sub, inner);
        case Other =>
      }
      assert sub == ChildOf(en);
      assert MapSeq(ChildOf, fields[..i + 1]) == MapSeq(ChildOf, fields[..i]) + [sub];
      e := e.(children := e.children + [sub]);
      i := i + 1;
    }
    assert fields[..i] == fields;
  }

  /* ---------- reading a built child back ---------- */

  /** The item an element describes: a child-less element with text is a
      tuple with its CDATA flag, one without text an empty value, and an
      element with children a nested dictionary. */
  function ReadBack(e: Element): (r: Entry)
    ensures r.key == e.tag
    decreases e
  {
    if |e.children| > 0 then
      Entry(e.tag, Nested(Dict(seq(|e.children|, i requires 0 <= i < |e.children| => ReadBack(e.children[i])))))
    else
      match e.text
      case None => Entry(e.tag, Other)
      case Some(t) => Entry(e.tag, Pair(t.s, t.cdata))
  }

  /** The item as the XML records it: a plain scalar is a tuple flagged
      CDATA, the dictionaries of a list merge into one, and an empty
      dictionary or list leaves an empty child. */
  function Canon(en: Entry): (r: Entry)
    ensures r.key == en.key
    decreases en
  {
    match en.value
    case Scalar(s) => Entry(en.key, Pair(s, true))
    case Pair(_, _) => en
    case Other => en
    case Nested(d) =>
      if d.items == [] then Entry(en.key, Other)
      else Entry(en.key, Nested(Dict(seq(|d.items|, i requires 0 <= i < |d.items| => Canon(d.items[i])))))
    case Siblings(ds) =>
      var flat := Flatten(seq(|ds|, j requires 0 <= j < |ds| =>
        seq(|ds[j].items|, i requires 0 <= i < |ds[j].items| => Canon(ds[j].items[i]))));
      if flat == [] then Entry(en.key, Other) else Entry(en.key, Nested(Dict(flat)))
  }

  /** What `__form_xml` writes for an item is read back as the item itself,
      up to the identifications `Canon` makes: the serializer loses
      nothing else. */
  lemma {:induction false} ReadBackChild(en: Entry)
    ensures ReadBack(ChildOf(en)) == Canon(en)
    decreases en
  {
    match en.value
    case Scalar(_) =>
    case Pair(_, _) =>
    case Other =>
    case Nested(d) =>
      var c := ChildOf(en);
      forall i | 0 <= i < |d.items|
        ensures ReadBack(c.children[i]) == Canon(d.items[i])
      {
        ReadBackChild(d.items[i]);
      }
      if d.items != [] {
        assert ReadBack(c).value.dict.items == seq(|d.items|, i requires 0 <= i < |d.items| => Canon(d.items[i]));
      }
    case Siblings(ds) =>
      var cs := seq(|ds|, j requires 0 <= j < |ds| =>
        seq(|ds[j].items|, i requires 0 <= i < |ds[j].items| => ChildOf(ds[j].items[i])));
      var ks := seq(|ds|, j requires 0 <= j < |ds| =>
        seq(|ds[j].items|, i requires 0 <= i < |ds[j].items| => Canon(ds[j].items[i])));
      forall j, i | 0 <= j < |ds| && 0 <= i < |ds[j].items|
        ensures ReadBack(cs[j][i]) == ks[j][i]
      {
        ReadBackChild(ds[j].items[i]);
      }
      SiblingsReadBack(cs, ks);
      var c := ChildOf(en);
      assert c.children == Flatten(cs);
      assert |c.children| == |Flatten(ks)|;
      if |c.children| > 0 {
        assert ReadBack(c).value.dict.items == MapSeq(ReadBack, c.children);
      }
  }

  /** Reading back the children of a list item child by child. */
  lemma {:induction false} SiblingsReadBack(cs: seq<seq<Element>>, ks: seq<seq<Entry>>)
    requires |cs| == |ks|
    requires forall j :: 0 <= j < |cs| ==> |cs[j]| == |ks[j]|
    requires forall j, i :: 0 <= j < |cs| && 0 <= i < |cs[j]| ==> ReadBack(cs[j][i]) == ks[j][i]
    ensures MapSeq(ReadBack, Flatten(cs)) == Flatten(ks)
    decreases |cs|
  {
    if cs != [] {
      SiblingsReadBack(cs[1..], ks[1..]);
      assert MapSeq(ReadBack, cs[0]) == ks[0];
      assert MapSeq(ReadBack, cs[0] + Flatten(cs[1..])) == MapSeq(ReadBack, cs[0]) + MapSeq(ReadBack, Flatten(cs[1..]));
    }
  }

  /* ---------- the messages ---------- */

  /** The header every reply starts with; the creation time is the clock
      reading `int(time.time())`, written without CDATA. */
  function Header(toUser: string, fromUser: string, now: int, msgType: string): Dict {
    Dict([Entry("ToUserName", Scalar(toUser)), Entry("FromUserName", Scalar(fromUser)),
          Entry("CreateTime", Pair(IntToStr(now), false)), Entry("MsgType", Scalar(msgType))])
  }

  /** A reply tree: `<xml>` holding the header and then the body. */
  function MessageTree(toUser: string, fromUser: string, now: int, msgType: string, body: Dict): Element {
    Element("xml", None, Children(Header(toUser, fromUser, now, msgType)) + Children(body))
  }

  function TextBody(content: string): Dict {
    Dict([Entry("Content", Scalar(content))])
  }

  function ImageBody(mediaId: string): Dict {
    Dict([Entry("Image", Nested(Dict([Entry("MediaId", Scalar(mediaId))])))])
  }

  /** The fields of one article a news reply shows. */
  datatype Article = Article(title: string, digest: string, coverUrl: string, newsUrl: string)

  function ItemDict(a: Article): Dict {
    Dict([Entry("item", Nested(Dict([Entry("Title", Scalar(a.title)), Entry("Description", Scalar(a.digest)),
                                     Entry("PicUrl", Scalar(a.coverUrl)), Entry("Url", Scalar(a.newsUrl))])))])
  }

  function ArticleBody(news: seq<Article>): Dict {
    Dict([Entry("ArticleCount", Pair(IntToStr(|news|), false)), Entry("Articles", Siblings(MapSeq(ItemDict, news)))])
  }

  /** The `<item>` element of one article. */
  function ItemElement(a: Article): Element {
    Element("item", None, [Element("Title", Some(XmlText(a.title, true)), []),
                           Element("Description", Some(XmlText(a.digest, true)), []),
                           Element("PicUrl", Some(XmlText(a.coverUrl, true)), []),
                           Element("Url", Some(XmlText(a.newsUrl, true)), [])])
  }

  /** The content of a system message, `"[System] {timestamp} 管理员
      {admin[toUser]} {content}"`; the timestamp is the local time as
      `%Y-%m-%d %H:%M:%S`, a parameter here. A recipient missing from the
      administrator table raises `KeyError`. */
  function SystemContent(admin: map<string, string>, toUser: string, content: string, timestamp: string): (r: Result<string>)
    ensures r.Err? <==> toUser !in admin
    ensures r.Err? ==> r.error == KeyError
  {
    if toUser in admin then Ok("[System] " + timestamp + " 管理员 " + admin[toUser] + " " + content)
    else Err(KeyError)
  }

  /** A reply under construction: the `<xml>` tree its constructors fill. */
  class Message {
    var tree: Element

    /** `Message.__init__`: an `<xml>` root holding the header. */
    constructor (toUser: string, fromUser: string, now: int, msgType: string)
      ensures tree == Element("xml", None, Children(Header(toUser, fromUser, now, msgType)))
    {
      tree := Element("xml", None, []);
      new;
      Update(Header(toUser, fromUser, now, msgType));
    }

    /** `_update(dataDict)`: appends the dictionary's children to the root. */
    method Update(d: Dict)
      modifies this
      ensures tree == old(tree).(children := old(tree).children + Children(d))
    {
      tree := FormXml(tree, d);
    }
  }

  /** `TextMsg(toUser, fromUser, content)`. */
  method TextMsg(toUser: string, fromUser: string, now: int, content: string) returns (m: Message)
    ensures fresh(m) && m.tree == MessageTree(toUser, fromUser, now, "text", TextBody(content))
  {
    m := new Message(toUser, fromUser, now, "text");
    m.Update(TextBody(content));
  }

  /** `ImageMsg(toUser, fromUser, mediaId)`. */
  method ImageMsg(toUser: string, fromUser: string, now: int, mediaId: string) returns (m: Message)
    ensures fresh(m) && m.tree == MessageTree(toUser, fromUser, now, "image", ImageBody(mediaId))
  {
    m := new Message(toUser, fromUser, now, "image");
    m.Update(ImageBody(mediaId));
  }

  /** `ArticleMsg(toUser, fromUser, newsInfo)`. */
  method ArticleMsg(toUser: string, fromUser: string, now: int, news: seq<Article>) returns (m: Message)
    ensures fresh(m) && m.tree == MessageTree(toUser, fromUser, now, "news", ArticleBody(news))
  {
    m := new Message(toUser, fromUser, now, "news");
    m.Update(ArticleBody(news));
  }

  /** `SystemMsg(toUser, fromUser, content, admin)`: a text reply, or the
      `KeyError` its constructor raises. */
  method SystemMsg(toUser: string, fromUser: string, now: int, content: string, admin: map<string, string>, timestamp: string)
    returns (r: Result<Message>)
    ensures r.Err? <==> toUser !in admin
    ensures r.Ok? ==> fresh(r.value)
    ensures r.Ok? ==> r.value.tree ==
                      MessageTree(toUser, fromUser, now, "text", TextBody(SystemContent(admin, toUser, content, timestamp).value))
  {
    var m := new Message(toUser, fromUser, now, "text");
    var text := SystemContent(admin, toUser, content, timestamp);
    if text.Err? {
      return Err(text.error);
    }
    m.Update(TextBody(text.value));
    r := Ok(m);
  }

  /* ---------- what a reply holds ---------- */

  /** Every reply starts with ToUserName, FromUserName, CreateTime and
      MsgType, in that order, all CDATA except the creation time, and its
      body follows them. */
  lemma HeaderShape(toUser: string, fromUser: string, now: int, msgType: string, body: Dict)
    ensures var t := MessageTree(toUser, fromUser, now, msgType, body);
      |t.children| == 4 + |body.items| &&
      t.children[0] == Element("ToUserName", Some(XmlText(toUser, true)), []) &&
      t.children[1] == Element("FromUserName", Some(XmlText(fromUser, true)), []) &&
      t.children[2] == Element("CreateTime", Some(XmlText(IntToStr(now), false)), []) &&
      t.children[3] == Element("MsgType", Some(XmlText(msgType, true)), []) &&
      t.children[4..] == Children(body)
  {
  }

  /** The header fields read back with `find(...).text`. */
  lemma HeaderFields(toUser: string, fromUser: string, now: int, msgType: string, body: Dict)
    ensures var t := MessageTree(toUser, fromUser, now, msgType, body);
      FindText(t, "ToUserName") == Ok(Some(toUser)) &&
      FindText(t, "FromUserName") == Ok(Some(fromUser)) &&
      FindText(t, "CreateTime") == Ok(Some(IntToStr(now))) &&
      FindText(t, "MsgType") == Ok(Some(msgType))
  {
    HeaderShape(toUser, fromUser, now, msgType, body);
    HeaderFieldsOf(MessageTree(toUser, fromUser, now, msgType, body), toUser, fromUser, IntToStr(now), msgType);
  }

  lemma HeaderFieldsOf(t: Element, toUser: string, fromUser: string, time: string, msgType: string)
    requires |t.children| >= 4
    requires t.children[0] == Element("ToUserName", Some(XmlText(toUser, true)), [])
    requires t.children[1] == Element("FromUserName", Some(XmlText(fromUser, true)), [])
    requires t.children[2] == Element("CreateTime", Some(XmlText(time, false)), [])
    requires t.children[3] == Element("MsgType", Some(XmlText(msgType, true)), [])
    ensures FindText(t, "ToUserName") == Ok(Some(toUser))
    ensures FindText(t, "FromUserName") == Ok(Some(fromUser))
    ensures FindText(t, "CreateTime") == Ok(Some(time))
    ensures FindText(t, "MsgType") == Ok(Some(msgType))
  {
    HeaderTagsDistinct();
    FindTextAt(t, "ToUserName", 0);
    FindTextAt(t, "FromUserName", 1);
    FindTextAt(t, "CreateTime", 2);
    FindTextAt(t, "MsgType", 3);
  }

  lemma HeaderTagsDistinct()
    ensures "FromUserName" != "ToUserName"
    ensures "CreateTime" != "ToUserName" && "CreateTime" != "FromUserName"
    ensures "MsgType" != "ToUserName" && "MsgType" != "FromUserName" && "MsgType" != "CreateTime"
  {
    assert |"FromUserName"| == 12 && |"ToUserName"| == 10 && |"MsgType"| == 7;
    assert "CreateTime"[0] != "ToUserName"[0];
  }

  /** A text reply is the header and one CDATA Content. */
  lemma TextReply(toUser: string, fromUser: string, now: int, content: string)
    ensures var t := MessageTree(toUser, fromUser, now, "text", TextBody(content));
      |t.children| == 5 &&
      t.children[4] == Element("Content", Some(XmlText(content, true)), []) &&
      FindText(t, "Content") == Ok(Some(content))
  {
    var t := MessageTree(toUser, fromUser, now, "text", TextBody(content));
    HeaderShape(toUser, fromUser, now, "text", TextBody(content));
    FindTextAt(t, "Content", 4);
  }

  /** An image reply nests the media id under Image. */
  lemma ImageReply(toUser: string, fromUser: string, now: int, mediaId: string)
    ensures var t := MessageTree(toUser, fromUser, now, "image", ImageBody(mediaId));
      |t.children| == 5 &&
      t.children[4] == Element("Image", None, [Element("MediaId", Some(XmlText(mediaId, true)), [])])
  {
    HeaderShape(toUser, fromUser, now, "image", ImageBody(mediaId));
    var inner := ChildOf(Entry("Image", ImageBody(mediaId).items[0].value));
    assert inner.children == [ChildOf(Entry("MediaId", Scalar(mediaId)))];
  }

  /** A news reply counts its articles without CDATA and lists one item
      per article, in order, each with Title, Description, PicUrl and Url. */
  lemma ArticleReply(toUser: string, fromUser: string, now: int, news: seq<Article>)
    ensures var t := MessageTree(toUser, fromUser, now, "news", ArticleBody(news));
      |t.children| == 6 &&
      t.children[4] == Element("ArticleCount", Some(XmlText(IntToStr(|news|), false)), []) &&
      t.children[5] == Element("Articles", None, MapSeq(ItemElement, news))
  {
    HeaderShape(toUser, fromUser, now, "news", ArticleBody(news));
    var ds := MapSeq(ItemDict, news);
    SiblingsChildren("Articles", ds);
    forall i | 0 <= i < |ds|
      ensures Children(ds[i]) == [ItemElement(news[i])]
    {
      ItemChildren(news[i]);
    }
    ItemsFlatten(news);
  }

  lemma ItemChildren(a: Article)
    ensures Children(ItemDict(a)) == [ItemElement(a)]
  {
    var item := ChildOf(ItemDict(a).items[0]);
    assert item.children == ItemElement(a).children;
  }

  lemma {:induction false} ItemsFlatten(news: seq<Article>)
    ensures Flatten(MapSeq(Children, MapSeq(ItemDict, news))) == MapSeq(ItemElement, news)
    decreases |news|
  {
    if news != [] {
      ItemChildren(news[0]);
      ItemsFlatten(news[1..]);
      var dicts := MapSeq(ItemDict, news);
      MapSeqCons(ItemDict, news);
      MapSeqCons(Children, dicts);
      MapSeqCons(ItemElement, news);
      FlattenCons(Children(dicts[0]), MapSeq(Children, dicts[1..]));
    }
  }

  /** The system content names the administrator and ends with the
      message. */
  lemma SystemContentShape(admin: map<string, string>, toUser: string, content: string, timestamp: string)
    requires toUser in admin
    ensures var r := SystemContent(admin, toUser, content, timestamp);
      r.Ok? && IsPrefix("[System] " + timestamp, r.value) &&
      r.value[|r.value| - |content|..] == content
  {
  }
}
