/** The lxml element trees the WeChat handlers read and build: a tag, an
    optional text (written out plainly or as a CDATA section) and the
    child elements in document order. Parsing and serialising XML text is
    lxml's business and is not part of this model. */
module Xml {
  import opened Wrappers

  /** The text of an element, and whether it was set through
      `etree.CDATA`; reading `.text` gives the string either way. */
  datatype XmlText = XmlText(s: string, cdata: bool)

  datatype Element = Element(tag: string, text: Option<XmlText>, children: seq<Element>)

  /** `element.text`. */
  function TextOf(e: Element): (r: Option<string>)
    ensures r.Some? <==> e.text.Some?
    ensures r.Some? ==> r.value == e.text.value.s
  {
    match e.text
    case None => None
    case Some(t) => Some(t.s)
  }

  /** The position of the first of `children` with tag `tag`, if any. */
  function FindIndex(children: seq<Element>, tag: string): (r: Option<nat>)
    ensures r.Some? ==> r.value < |children| && children[r.value].tag == tag
    ensures r.Some? ==> forall k :: 0 <= k < r.value ==> children[k].tag != tag
    ensures r.None? ==> forall k :: 0 <= k < |children| ==> children[k].tag != tag
  {
    if children == [] then None
    else if children[0].tag == tag then Some(0)
    else
      match FindIndex(children[1..], tag)
      case None => None
      case Some(i) => Some(i + 1)
  }

  /** `element.find(tag)`: the first child with that tag, `None` when there
      is none. */
  function Find(e: Element, tag: string): (r: Option<Element>)
    ensures r.Some? ==> r.value in e.children && r.value.tag == tag
    ensures r.None? <==> forall k :: 0 <= k < |e.children| ==> e.children[k].tag != tag
  {
    match FindIndex(e.children, tag)
    case None => None
    case Some(i) => Some(e.children[i])
  }

  /** `element.find(tag).text`: `AttributeError` when the child is missing,
      `None` inside `Ok` when it has no text. */
  function FindText(e: Element, tag: string): (r: Result<Option<string>>)
    ensures r.Err? <==> Find(e, tag).None?
    ensures r.Err? ==> r.error == AttributeError
    ensures r.Ok? ==> r.value == TextOf(Find(e, tag).value)
  {
    match Find(e, tag)
    case None => Err(AttributeError)
    case Some(child) => Ok(TextOf(child))
  }

  /** `find` looks at the children in order: a child with the tag placed
      in front of the others is the one found, and children added after
      the existing ones do not change what is found among them. */
  lemma {:induction false} FindAppend(before: seq<Element>, after: seq<Element>, tag: string)
    requires FindIndex(before, tag).Some?
    ensures FindIndex(before + after, tag) == FindIndex(before, tag)
    decreases |before|
  {
    if before[0].tag != tag {
      assert (before + after)[1..] == before[1..] + after;
      FindAppend(before[1..], after, tag);
    }
  }

  /** When none of the earlier children carries the tag, the search goes
      on among the later ones. */
  lemma {:induction false} FindSkip(before: seq<Element>, after: seq<Element>, tag: string)
    requires FindIndex(before, tag).None?
    ensures FindIndex(before + after, tag) ==
      match FindIndex(after, tag) case None => None case Some(i) => Some(|before| + i)
    decreases |before|
  {
    if before == [] {
      assert before + after == after;
    } else {
      assert (before + after)[1..] == before[1..] + after;
      FindSkip(before[1..], after, tag);
    }
  }

  /** The child found is the first one with the tag. */
  lemma {:induction false} FindIndexAt(children: seq<Element>, tag: string, i: nat)
    requires i < |children| && children[i].tag == tag
    requires forall k :: 0 <= k < i ==> children[k].tag != tag
    ensures FindIndex(children, tag) == Some(i)
    decreases i
  {
    if i > 0 {
      FindIndexAt(children[1..], tag, i - 1);
    }
  }

  /** `find(tag).text` on an element whose child at `i` is the first with
      that tag. */
  lemma FindTextAt(e: Element, tag: string, i: nat)
    requires i < |e.children| && e.children[i].tag == tag
    requires forall k :: 0 <= k < i ==> e.children[k].tag != tag
    ensures FindText(e, tag) == Ok(TextOf(e.children[i]))
  {
    FindIndexAt(e.children, tag, i);
  }
}
