/** The messages WeChat pushes to the official-account server: the XML body
    is classified by its MsgType (and, for events, its Event) and the
    fields the message class lists are copied out of the tree. */
module Receive {
  import opened Wrappers
  import opened Xml

  /** `Message.keys`. */
  const MessageKeys: seq<string> := ["ToUserName", "FromUserName", "CreateTime", "MsgType", "MsgId"]

  /** `TextMsg.keys`. */
  const TextKeys: seq<string> := MessageKeys + ["Content"]

  /** `ImageMsg.keys`. */
  const ImageKeys: seq<string> := MessageKeys + ["PicUrl", "MediaId"]

  /** `Event.keys`, shared by the follow and unfollow events. */
  const EventKeys: seq<string> := ["ToUserName", "FromUserName", "CreateTime", "MsgType", "Event", "EventKey"]

  /** The attributes a message object gets: one per key, holding that
      element's text (`None` for an element without text). */
  type Attrs = map<string, Option<string>>

  /** `{key: tree.find(key).text for key in keys}`, key by key:
      `AttributeError` as soon as one key has no element. */
  function ReadKeys(tree: Element, keys: seq<string>): (r: Result<Attrs>)
    ensures r.Err? ==> r.error == AttributeError
    decreases |keys|
  {
    if keys == [] then Ok(map[])
    else
      var v :- FindText(tree, keys[0]);
      var m :- ReadKeys(tree, keys[1..]);
      Ok(m[keys[0] := v])
  }

  /** Every key names a child of the tree. */
  predicate AllFound(tree: Element, keys: seq<string>) {
    forall k :: k in keys ==> Find(tree, k).Some?
  }

  /** One attribute per key, holding the text of the first child with that
      tag. */
  function KeyTexts(tree: Element, keys: seq<string>): (m: Attrs)
    requires AllFound(tree, keys)
  {
    map k | k in keys :: TextOf(Find(tree, k).value)
  }

  /** The comprehension succeeds exactly when every key is present, and
      then it maps each key to its element's text and holds no other key. */
  lemma {:induction false} ReadKeysSpec(tree: Element, keys: seq<string>)
    ensures ReadKeys(tree, keys) == if AllFound(tree, keys) then Ok(KeyTexts(tree, keys)) else Err(AttributeError)
    decreases |keys|
  {
    if keys != [] {
      ReadKeysSpec(tree, keys[1..]);
      assert forall k :: k in keys <==> k == keys[0] || k in keys[1..];
      if AllFound(tree, keys) {
        assert KeyTexts(tree, keys) == KeyTexts(tree, keys[1..])[keys[0] := TextOf(Find(tree, keys[0]).value)];
      }
    }
  }

  /** Reading more keys reads the first ones the same way. */
  lemma ReadKeysAppend(tree: Element, a: seq<string>, b: seq<string>)
    requires ReadKeys(tree, a + b).Ok?
    ensures ReadKeys(tree, a).Ok? && ReadKeys(tree, b).Ok?
    ensures ReadKeys(tree, a + b).value == ReadKeys(tree, a).value + ReadKeys(tree, b).value
  {
    ReadKeysSpec(tree, a + b);
    ReadKeysSpec(tree, a);
    ReadKeysSpec(tree, b);
    KeyTextsAppend(tree, a, b);
  }

  lemma KeyTextsAppend(tree: Element, a: seq<string>, b: seq<string>)
    requires AllFound(tree, a + b)
    ensures AllFound(tree, a) && AllFound(tree, b)
    ensures KeyTexts(tree, a + b) == KeyTexts(tree, a) + KeyTexts(tree, b)
  {
    assert forall k :: k in a + b <==> k in a || k in b;
  }

  /** A received message: the parsed tree, and the attributes `_update`
      copies into the object's `__dict__`. */
  class Received {
    var tree: Element
    var attrs: Attrs

    /** `BaseMsg.__init__(tree)`. */
    constructor (tree: Element)
      ensures this.tree == tree && attrs == map[]
    {
      this.tree := tree;
      attrs := map[];
    }

    /** `_update()` with the class's `keys`: every attribute is read before
        any is stored, so a missing element leaves the object as it was. */
    method Update(keys: seq<string>) returns (err: Option<PyError>)
      modifies this
      ensures tree == old(tree)
      ensures ReadKeys(tree, keys).Ok? ==> err.None? && attrs == old(attrs) + ReadKeys(tree, keys).value
      ensures ReadKeys(tree, keys).Err? ==> err == Some(AttributeError) && attrs == old(attrs)
    {
      var r := ReadKeys(tree, keys);
      if r.Err? {
        return Some(r.error);
      }
      attrs := attrs + r.value;
      err := None;
    }
  }

  datatype Kind = TextMessage | ImageMessage | FollowEvent | UnFollowEvent

  /** The key list of each message class. */
  function KeysOf(kind: Kind): seq<string> {
    match kind
    case TextMessage => TextKeys
    case ImageMessage => ImageKeys
    case FollowEvent => EventKeys
    case UnFollowEvent => EventKeys
  }

  /** What `parse_msg` returns: a message object of one of the four
      classes, or the raw XML text unchanged. */
  datatype Parsed = Msg(kind: Kind, attrs: Attrs) | Raw(xml: string)

  /** The class `parse_msg` picks for a tree, by MsgType and Event text,
      or `None` when it hands back the raw text; `AttributeError` when a
      MsgType (or, for an event, Event) element is missing. */
  function Classify(tree: Element): (r: Result<Option<Kind>>)
    ensures r.Err? ==> r.error == AttributeError
    ensures r == Ok(Some(TextMessage)) <==> FindText(tree, "MsgType") == Ok(Some("text"))
    ensures r == Ok(Some(ImageMessage)) <==> FindText(tree, "MsgType") == Ok(Some("image"))
    ensures r == Ok(Some(FollowEvent)) <==>
      FindText(tree, "MsgType") == Ok(Some("event")) && FindText(tree, "Event") == Ok(Some("subscribe"))
    ensures r == Ok(Some(UnFollowEvent)) <==>
      FindText(tree, "MsgType") == Ok(Some("event")) && FindText(tree, "Event") == Ok(Some("unsubscribe"))
  {
    var msgType :- FindText(tree, "MsgType");
    if msgType == Some("text") then Ok(Some(TextMessage))
    else if msgType == Some("image") then Ok(Some(ImageMessage))
    else if msgType == Some("event") then
      var eventType :- FindText(tree, "Event");
      if eventType == Some("subscribe") then Ok(Some(FollowEvent))
      else if eventType == Some("unsubscribe") then Ok(Some(UnFollowEvent))
      else Ok(None)
    else Ok(None)
  }

  /** `parse_msg(xmlContent)`. The XML parser is a parameter; text it
      rejects raises lxml's `XMLSyntaxError`, modelled as `GenericError`. */
  function ParseMsg(raw: string, parse: string -> Option<Element>): (r: Result<Parsed>)
    ensures parse(raw).None? ==> r == Err(GenericError)
    ensures parse(raw).Some? ==> var tree := parse(raw).value;
      (r.Ok? && r.value.Raw? <==> Classify(tree) == Ok(None)) &&
      (r.Ok? && r.value.Raw? ==> r.value.xml == raw) &&
      (r.Ok? && r.value.Msg? ==> Classify(tree) == Ok(Some(r.value.kind)) &&
                                 ReadKeys(tree, KeysOf(r.value.kind)) == Ok(r.value.attrs))
  {
    match parse(raw)
    case None => Err(GenericError)
    case Some(tree) =>
      var kind :- Classify(tree);
      match kind
      case None => Ok(Raw(raw))
      case Some(k) =>
        var attrs :- ReadKeys(tree, KeysOf(k));
        Ok(Msg(k, attrs))
  }

  /** Parsing fails only with the parser's syntax error or with the
      `AttributeError` of a missing element. */
  lemma ParseMsgErrors(raw: string, parse: string -> Option<Element>)
    ensures ParseMsg(raw, parse).Err? ==>
      ParseMsg(raw, parse).error == GenericError || ParseMsg(raw, parse).error == AttributeError
  {
  }

  /** A message of a known class parses exactly when every key of its
      class has an element; each attribute then holds that element's
      text. */
  lemma ParseMsgKnown(raw: string, parse: string -> Option<Element>, kind: Kind)
    requires parse(raw).Some? && Classify(parse(raw).value) == Ok(Some(kind))
    ensures var tree := parse(raw).value;
      ParseMsg(raw, parse) ==
        if AllFound(tree, KeysOf(kind)) then Ok(Msg(kind, KeyTexts(tree, KeysOf(kind)))) else Err(AttributeError)
  {
    ReadKeysSpec(parse(raw).value, KeysOf(kind));
  }

  /** Text and image messages carry every attribute of a plain message,
      with the same values. */
  lemma MessageAttrsIncluded(tree: Element, kind: Kind)
    requires kind == TextMessage || kind == ImageMessage
    requires ReadKeys(tree, KeysOf(kind)).Ok?
    ensures ReadKeys(tree, MessageKeys).Ok?
    ensures forall k :: k in ReadKeys(tree, MessageKeys).value ==>
      k in ReadKeys(tree, KeysOf(kind)).value &&
      ReadKeys(tree, KeysOf(kind)).value[k] == ReadKeys(tree, MessageKeys).value[k]
  {
    ReadKeysAppend(tree, MessageKeys, KeysOf(kind)[|MessageKeys|..]);
    assert KeysOf(kind) == MessageKeys + KeysOf(kind)[|MessageKeys|..];
    ReadKeysSpec(tree, KeysOf(kind));
    ReadKeysSpec(tree, MessageKeys);
  }

  /** The attributes are exactly the class's keys, each holding the text of
      its element. */
  lemma ParsedAttrs(raw: string, parse: string -> Option<Element>)
    requires ParseMsg(raw, parse).Ok? && ParseMsg(raw, parse).value.Msg?
    ensures var p := ParseMsg(raw, parse).value; var tree := parse(raw).value;
      (forall k :: k in p.attrs <==> k in KeysOf(p.kind)) &&
      forall k :: k in KeysOf(p.kind) ==> Find(tree, k).Some? && p.attrs[k] == TextOf(Find(tree, k).value)
  {
    var p := ParseMsg(raw, parse).value;
    ReadKeysSpec(parse(raw).value, KeysOf(p.kind));
  }
}
