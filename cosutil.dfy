/** The helpers of the object-storage client (`cos_v5/util.py`): turning
    request values into bytes, turning an XML answer into nested
    dictionaries, and building object keys from path parts. */
module CosUtil {
  import opened Wrappers
  import opened PyValues
  import opened Text
  import opened Collections
  import Utf8
  import opened Xml

  /* ---------- to_bytes ---------- */

  /** `str(v)` for the kinds `to_bytes` converts; `str` of a float is
      Python's shortest round-trip repr, given here as `floatStr`. */
  function Str(v: PyVal, floatStr: real -> string): (r: Option<string>)
    ensures r.Some? <==> (v.PStr? || IsNumber(v))
    ensures v.PStr? ==> r == Some(v.s)
  {
    match v
    case PStr(s) => Some(s)
    case PInt(i) => Some(IntToStr(i))
    case PBool(b) => Some(if b then "True" else "False")
    case PFloat(x) => Some(floatStr(x))
    case _ => None
  }

  /** `to_bytes(data)`: bytes unchanged, the UTF-8 encoding of `str(data)`
      for str, int (bool included) and float, `None` for anything else. */
  function ToBytes(v: PyVal, floatStr: real -> string): (r: Option<seq<byte>>)
    ensures v.PBytes? ==> r == Some(v.bytes)
    ensures r.None? <==> (v.PNone? || v.PList?)
  {
    match v
    case PBytes(b) => Some(b)
    case PNone => None
    case PList(_) => None
    case _ => Some(Utf8.Encode(Str(v, floatStr).value))
  }

  /** Whatever `to_bytes` makes of a str, int or float decodes back to
      `str(data)`. */
  lemma ToBytesDecodes(v: PyVal, floatStr: real -> string)
    requires Str(v, floatStr).Some?
    ensures ToBytes(v, floatStr).Some?
    ensures Utf8.Decode(ToBytes(v, floatStr).value) == Ok(Str(v, floatStr).value)
  {
    Utf8.DecodeEncode(Str(v, floatStr).value);
  }

  /** Bools are rendered by name, not as 0 and 1. */
  lemma ToBytesBool()
    ensures ToBytes(PBool(true), x => "") == Some(Utf8.Encode("True"))
    ensures ToBytes(PInt(1), x => "") == Some(Utf8.Encode("1"))
    ensures ToBytes(PBool(true), x => "") != ToBytes(PInt(1), x => "")
  {
    assert IntToStr(1) == "1";
    Utf8.DecodeEncode("True");
    Utf8.DecodeEncode("1");
  }

  /* ---------- xml2json ---------- */

  /** The values of the dictionaries `__xml2json` builds: the stripped
      text of a leaf, or the list of the children's dictionaries. */
  datatype JVal = JText(s: string) | JList(items: seq<JDict>)

  /** A dictionary `{tag: value}`; `__xml2json` only builds dictionaries
      with exactly one key, the element's tag. */
  datatype JDict = JDict(tag: string, value: JVal)

  /** `__xml2json(tree)`. */
  function Xml2JsonTree(e: Element): (r: JDict)
    ensures r.tag == e.tag
    ensures e.children != [] <==> r.value.JList?
    ensures r.value.JList? ==> |r.value.items| == |e.children|
    decreases e
  {
    if |e.children| > 0 then
      JDict(e.tag, JList(seq(|e.children|, i requires 0 <= i < |e.children| => Xml2JsonTree(e.children[i]))))
    else
      JDict(e.tag, JText(Strip(match TextOf(e) case None => "" case Some(s) => s)))
  }

  /** The dictionaries `__xml2json` can produce: lists are never empty
      (an element without children is a leaf) and texts are stripped. */
  predicate WellFormed(d: JDict)
    decreases d
  {
    match d.value
    case JText(s) => Strip(s) == s
    case JList(items) => |items| > 0 && forall i :: 0 <= i < |items| ==> WellFormed(items[i])
  }

  /** The element a dictionary describes: text for a leaf, children for a
      list. */
  function JsonToXml(d: JDict): (e: Element)
    ensures e.tag == d.tag
    decreases d
  {
    match d.value
    case JText(s) => Element(d.tag, Some(XmlText(s, false)), [])
    case JList(items) =>
      Element(d.tag, None, seq(|items|, i requires 0 <= i < |items| => JsonToXml(items[i])))
  }

  /** What of an element survives `__xml2json`: the tag, the children of
      an inner node and the stripped text of a leaf (missing text reads as
      ""). An inner node's own text and the CDATA marks are dropped. */
  function Normalize(e: Element): (r: Element)
    ensures r.tag == e.tag && |r.children| == |e.children|
    decreases e
  {
    if |e.children| > 0 then
      Element(e.tag, None, seq(|e.children|, i requires 0 <= i < |e.children| => Normalize(e.children[i])))
    else
      Element(e.tag, Some(XmlText(Strip(match TextOf(e) case None => "" case Some(s) => s), false)), [])
  }

  lemma StripIdem(s: string)
    ensures Strip(Strip(s)) == Strip(s)
  {
    StripTrimmed(Strip(s));
  }

  /** Every result of `__xml2json` is well formed. */
  lemma {:induction false} Xml2JsonWellFormed(e: Element)
    ensures WellFormed(Xml2JsonTree(e))
    decreases e
  {
    if |e.children| > 0 {
      var items := Xml2JsonTree(e).value.items;
      forall i | 0 <= i < |items|
        ensures WellFormed(items[i])
      {
        Xml2JsonWellFormed(e.children[i]);
      }
    } else {
      StripIdem(match TextOf(e) case None => "" case Some(s) => s);
    }
  }

  /** Reading the dictionary back as XML gives the element as normalised:
      `__xml2json` loses exactly what `Normalize` drops. */
  lemma {:induction false} Xml2JsonBack(e: Element)
    ensures JsonToXml(Xml2JsonTree(e)) == Normalize(e)
    decreases e
  {
    if |e.children| > 0 {
      var back := JsonToXml(Xml2JsonTree(e));
      var norm := Normalize(e);
      forall i | 0 <= i < |e.children|
        ensures back.children[i] == norm.children[i]
      {
        Xml2JsonBack(e.children[i]);
      }
    }
  }

  /** Every well-formed dictionary is what `__xml2json` makes of the
      element it describes. */
  lemma {:induction false} Xml2JsonOfJson(d: JDict)
    requires WellFormed(d)
    ensures Xml2JsonTree(JsonToXml(d)) == d
    decreases d
  {
    match d.value
    case JText(s) =>
    case JList(items) =>
      var r := Xml2JsonTree(JsonToXml(d));
      forall i | 0 <= i < |items|
        ensures r.value.items[i] == items[i]
      {
        Xml2JsonOfJson(items[i]);
      }
  }

  /** `xml2json(xml)`: `{}` (here `None`) for a falsy input and for text
      the parser rejects; a value `to_bytes` cannot convert reaches the
      parser as `None`, which raises `ValueError`, re-raised. The parser is
      a parameter. */
  function Xml2Json(xml: PyVal, floatStr: real -> string, parse: seq<byte> -> Option<Element>): (r: Result<Option<JDict>>)
    ensures !Truthy(xml) ==> r == Ok(None)
    ensures r.Err? <==> (xml.PList? && xml.items != [])
    ensures r.Err? ==> r.error == ValueError
    ensures r.Ok? && r.value.Some? ==> WellFormed(r.value.value)
  {
    if !Truthy(xml) then Ok(None)
    else
      match ToBytes(xml, floatStr)
      case None => Err(ValueError)
      case Some(b) =>
        match parse(b)
        case None => Ok(None)
        case Some(e) => Xml2JsonWellFormed(e); Ok(Some(Xml2JsonTree(e)))
  }

  /** An accepted document's dictionary has the root's tag and describes
      the document up to normalisation. */
  lemma Xml2JsonParsed(xml: PyVal, floatStr: real -> string, parse: seq<byte> -> Option<Element>)
    requires Truthy(xml) && ToBytes(xml, floatStr).Some?
    requires parse(ToBytes(xml, floatStr).value).Some?
    ensures var e := parse(ToBytes(xml, floatStr).value).value;
      Xml2Json(xml, floatStr, parse) == Ok(Some(Xml2JsonTree(e))) &&
      JsonToXml(Xml2Json(xml, floatStr, parse).value.value) == Normalize(e)
  {
    Xml2JsonBack(parse(ToBytes(xml, floatStr).value).value);
  }

  /* ---------- url_join / remote_path ---------- */

  function LStripSlash(s: string): (r: string)
    ensures |r| <= |s| && r == s[|s| - |r|..]
    ensures forall k :: 0 <= k < |s| - |r| ==> s[k] == '/'
    ensures r == [] || r[0] != '/'
    decreases |s|
  {
    if s != [] && s[0] == '/' then LStripSlash(s[1..]) else s
  }

  function RStripSlash(s: string): (r: string)
    ensures |r| <= |s| && r == s[..|r|]
    ensures forall k :: |r| <= k < |s| ==> s[k] == '/'
    ensures r == [] || r[|r| - 1] != '/'
    decreases |s|
  {
    if s != [] && s[|s| - 1] == '/' then RStripSlash(s[..|s| - 1]) else s
  }

  /** `s.strip('/')`. */
  function StripSlash(s: string): (r: string)
    ensures r == [] || (r[0] != '/' && r[|r| - 1] != '/')
  {
    RStripSlash(LStripSlash(s))
  }

  /** `strip('/')` removes slashes at the ends and nothing else: `s` is
      some slashes, the result, then some slashes. */
  lemma StripSlashSplits(s: string) returns (i: nat)
    ensures i + |StripSlash(s)| <= |s| && s[i..i + |StripSlash(s)|] == StripSlash(s)
    ensures forall k :: 0 <= k < i ==> s[k] == '/'
    ensures forall k :: i + |StripSlash(s)| <= k < |s| ==> s[k] == '/'
  {
    var l := LStripSlash(s);
    i := |s| - |l|;
    var r := StripSlash(s);
    assert r == l[..|r|];
    forall k | i + |r| <= k < |s|
      ensures s[k] == '/'
    {
      assert s[k] == l[k - i];
    }
  }

  /** A string without slashes is its own `strip('/')`. */
  lemma StripSlashFree(s: string)
    requires '/' !in s
    ensures StripSlash(s) == s
  {
    if s != [] {
      assert s[0] != '/' && s[|s| - 1] != '/';
    }
  }

  /** `url_join(*parts)`: each part stripped of slashes at its ends, joined
      with single slashes. */
  function UrlJoin(parts: seq<string>): string {
    Join("/", MapSeq(StripSlash, parts))
  }

  /** The path segments one part contributes. */
  function Pieces(p: string): seq<string> {
    SplitOn(StripSlash(p), '/')
  }

  /** The segments of a joined path are the segments of its parts, in
      order: joining adds exactly one boundary between consecutive parts
      and slashes at the ends of a part never reach the result. */
  lemma {:induction false} UrlJoinSegments(parts: seq<string>)
    requires |parts| >= 1
    ensures SplitOn(UrlJoin(parts), '/') == Flatten(MapSeq(Pieces, parts))
    decreases |parts|
  {
    MapSeqCons(StripSlash, parts);
    MapSeqCons(Pieces, parts);
    if |parts| == 1 {
      assert MapSeq(Pieces, parts[1..]) == [];
      assert Flatten(MapSeq(Pieces, parts)) == Pieces(parts[0]) + [];
    } else {
      UrlJoinSegments(parts[1..]);
      UrlJoinCons(parts);
      SplitOnSep(StripSlash(parts[0]), UrlJoin(parts[1..]), '/');
    }
  }

  lemma UrlJoinCons(parts: seq<string>)
    requires |parts| >= 2
    ensures UrlJoin(parts) == StripSlash(parts[0]) + ['/'] + UrlJoin(parts[1..])
  {
    MapSeqCons(StripSlash, parts);
    assert MapSeq(StripSlash, parts)[1..] == MapSeq(StripSlash, parts[1..]);
  }

  /** Parts without slashes inside are recovered from the joined path. */
  lemma UrlJoinParts(parts: seq<string>)
    requires |parts| >= 1
    requires forall i :: 0 <= i < |parts| ==> '/' !in StripSlash(parts[i])
    ensures SplitOn(UrlJoin(parts), '/') == MapSeq(StripSlash, parts)
  {
    SplitOnJoin(MapSeq(StripSlash, parts), '/');
  }

  /** Where the file name starts: one past the last slash, 0 when there is
      none (`p.rfind('/') + 1`). */
  function NameStart(p: string): (i: nat)
    ensures i <= |p|
    ensures forall k :: i <= k < |p| ==> p[k] != '/'
    ensures i > 0 ==> p[i - 1] == '/'
    decreases |p|
  {
    if p == [] || p[|p| - 1] == '/' then |p| else NameStart(p[..|p| - 1])
  }

  /** `os.path.basename(p)`: what follows the last slash, all of `p` when
      there is none. */
  function Basename(p: string): (r: string)
    ensures '/' !in r
  {
    p[NameStart(p)..]
  }

  /** `remote_path(folder, *paths)`: the folder followed by the file name
      of each path. */
  function RemotePath(folder: string, paths: seq<string>): string {
    UrlJoin([folder] + MapSeq(Basename, paths))
  }

  /** A name without slashes is a single segment. */
  lemma PiecesFree(name: string)
    requires '/' !in name
    ensures Pieces(name) == [name]
  {
    StripSlashFree(name);
    SplitOnFree(name, '/');
  }

  /** An object key built by `remote_path` is the folder's segments followed
      by one segment per path, its file name, whatever directories the
      paths carried. */
  lemma RemotePathSegments(folder: string, paths: seq<string>)
    ensures SplitOn(RemotePath(folder, paths), '/') == Pieces(folder) + MapSeq(Basename, paths)
  {
    var names := MapSeq(Basename, paths);
    var parts := [folder] + names;
    UrlJoinSegments(parts);
    MapSeqCons(Pieces, parts);
    assert parts[0] == folder && parts[1..] == names;
    FlattenCons(Pieces(folder), MapSeq(Pieces, names));
    NamesAreSegments(names);
  }

  /** File names are one segment each. */
  lemma NamesAreSegments(names: seq<string>)
    requires forall i :: 0 <= i < |names| ==> '/' !in names[i]
    ensures Flatten(MapSeq(Pieces, names)) == names
  {
    forall i | 0 <= i < |names|
      ensures Pieces(names[i]) == [names[i]]
    {
      PiecesFree(names[i]);
    }
    FlattenSingletons(Pieces, names);
  }
}
