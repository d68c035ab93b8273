/** The bookkeeping of `HTMLcoder`, the converter that rewrites the
    paragraphs of a Word document as the HTML of an article: the run
    parameters it accepts, the `{% zone %}` / `{% endzone %}` markers that
    split the document into a head, a body and a tail, the word and
    picture counters kept while the body is read, the reading time derived
    from them, bold detection and the half-width to full-width conversion
    of spaces and bars. Building the HTML itself is not modelled. */
module Final {
  import opened Wrappers
  import opened PyValues
  import opened Text
  import Collections

  /** What the converter raises: a Python exception of a given class, or
      one of its own `Exception`s, carrying the values its message shows. */
  datatype CoderError =
    | Python(error: PyError)
    | UnknownParam(param: string)
    | IllegalParam(param: string, value: PyVal)
    | CountBoth
    | IllegalZone(zone: string, zoneInfo: string)
    | UnexpectedEnd(zone: string)
    | Unpaired(zone: string, current: string)
    | MissingEndBefore(current: string, zone: string)
    | MissingEnd(current: string)

  /** A value, or the exception raised instead. */
  datatype Outcome<+T> = Done(value: T) | Raised(error: CoderError)

  // ---------------------------------------------------------------------
  // Run parameters

  /** The parameter names `_set_params` accepts. */
  const ParamNames: seq<string> := ["noRpt", "noRef", "countPict", "countWord", "full"]

  /** The five run parameters; `_set_params` stores a value as given, so a
      parameter may hold `1` as well as `True`. */
  datatype Flags = Flags(countWord: PyVal, countPict: PyVal, noRpt: PyVal, noRef: PyVal, full: PyVal)

  /** The values `__init__` starts from: count words, nothing else. */
  const DefaultFlags: Flags := Flags(PBool(true), PBool(false), PBool(false), PBool(false), PBool(false))

  /** `value in {True, False}`: set membership compares by hash and `==`,
      so `1`, `0`, `1.0` and `0.0` belong as well, and a list, being
      unhashable, raises `TypeError`. */
  function BoolLike(v: PyVal): (r: Result<bool>)
    ensures r.Err? <==> v.PList?
    ensures r.Err? ==> r.error == TypeError
    ensures r.Ok? ==> (r.value <==> IsNumber(v) && (NumOf(v) == 0.0 || NumOf(v) == 1.0))
  {
    if v.PList? then Err(TypeError)
    else Ok(PyEq(v, PBool(true)) || PyEq(v, PBool(false)))
  }

  /** The parameter called `name`. */
  function Get(f: Flags, name: string): PyVal
    requires name in ParamNames
  {
    if name == "countWord" then f.countWord
    else if name == "countPict" then f.countPict
    else if name == "noRpt" then f.noRpt
    else if name == "noRef" then f.noRef
    else f.full
  }

  /** `self.__dict__[name] = v`: that parameter changes, no other. */
  function SetFlag(f: Flags, name: string, v: PyVal): (g: Flags)
    requires name in ParamNames
    ensures Get(g, name) == v
    ensures forall other :: other in ParamNames && other != name ==> Get(g, other) == Get(f, other)
  {
    if name == "countWord" then f.(countWord := v)
    else if name == "countPict" then f.(countPict := v)
    else if name == "noRpt" then f.(noRpt := v)
    else if name == "noRef" then f.(noRef := v)
    else f.(full := v)
  }

  /** Whether one keyword argument passes both checks. */
  predicate Acceptable(entry: (string, PyVal)) {
    entry.0 in ParamNames && BoolLike(entry.1) == Ok(true)
  }

  /** The loop of `_set_params`, over the keyword arguments in order: an
      unknown name raises, then a value outside `{True, False}` does;
      otherwise the value is stored. Stores made before the failing
      argument stay made. */
  function ApplyParams(f: Flags, kw: seq<(string, PyVal)>): (r: (Flags, Option<CoderError>))
    decreases |kw|
  {
    if kw == [] then (f, None)
    else
      var (g, e) := ApplyParams(f, kw[..|kw| - 1]);
      if e.Some? then (g, e)
      else
        var (name, value) := kw[|kw| - 1];
        if name !in ParamNames then (g, Some(UnknownParam(name)))
        else
          match BoolLike(value)
          case Err(x) => (g, Some(Python(x)))
          case Ok(ok) => if !ok then (g, Some(IllegalParam(name, value))) else (SetFlag(g, name, value), None)
  }

  /** `_set_params(kw)`: the loop, then the refusal to count words and
      pictures at once. */
  function SetParamsSpec(f: Flags, kw: seq<(string, PyVal)>): (r: (Flags, Option<CoderError>))
  {
    var (g, e) := ApplyParams(f, kw);
    if e.Some? then (g, e)
    else if Truthy(g.countWord) && Truthy(g.countPict) then (g, Some(CountBoth))
    else (g, None)
  }

  /** The value the last argument named `name` carries, `d` when there is
      none. */
  function LastValue(kw: seq<(string, PyVal)>, name: string, d: PyVal): PyVal
    decreases |kw|
  {
    if kw == [] then d
    else if kw[|kw| - 1].0 == name then kw[|kw| - 1].1
    else LastValue(kw[..|kw| - 1], name, d)
  }

  /** The loop gets through exactly when every argument is acceptable, and
      then each parameter holds the last value given for it. */
  lemma {:induction false} ApplyParamsAccepts(f: Flags, kw: seq<(string, PyVal)>)
    ensures ApplyParams(f, kw).1.None? <==> forall k :: 0 <= k < |kw| ==> Acceptable(kw[k])
    ensures ApplyParams(f, kw).1.None? ==>
      forall name :: name in ParamNames ==> Get(ApplyParams(f, kw).0, name) == LastValue(kw, name, Get(f, name))
    decreases |kw|
  {
    if kw != [] {
      var init := kw[..|kw| - 1];
      ApplyParamsAccepts(f, init);
      assert forall k :: 0 <= k < |init| ==> init[k] == kw[k];
    }
  }

  /** An argument that fails stops the loop with its own error, whatever
      follows it. */
  lemma {:induction false} ApplyParamsStops(f: Flags, kw: seq<(string, PyVal)>, i: nat)
    requires i <= |kw| && ApplyParams(f, kw[..i]).1.Some?
    ensures ApplyParams(f, kw) == ApplyParams(f, kw[..i])
    decreases |kw| - i
  {
    if i < |kw| {
      assert kw[..i + 1][..i] == kw[..i];
      ApplyParamsStops(f, kw, i + 1);
    } else {
      assert kw[..i] == kw;
    }
  }

  /** After a successful `_set_params` every parameter is `True` or
      `False` (by `==`), provided they were before, and at most one of the
      two counts is switched on. */
  lemma SetParamsResult(f: Flags, kw: seq<(string, PyVal)>)
    requires forall name :: name in ParamNames ==> BoolLike(Get(f, name)) == Ok(true)
    requires SetParamsSpec(f, kw).1.None?
    ensures forall name :: name in ParamNames ==> BoolLike(Get(SetParamsSpec(f, kw).0, name)) == Ok(true)
    ensures !(Truthy(SetParamsSpec(f, kw).0.countWord) && Truthy(SetParamsSpec(f, kw).0.countPict))
  {
    ApplyParamsAccepts(f, kw);
    var g := SetParamsSpec(f, kw).0;
    forall name | name in ParamNames
      ensures BoolLike(Get(g, name)) == Ok(true)
    {
      LastValueAcceptable(kw, name, Get(f, name));
    }
  }

  lemma {:induction false} LastValueAcceptable(kw: seq<(string, PyVal)>, name: string, d: PyVal)
    requires forall k :: 0 <= k < |kw| ==> Acceptable(kw[k])
    requires BoolLike(d) == Ok(true)
    ensures BoolLike(LastValue(kw, name, d)) == Ok(true)
    decreases |kw|
  {
    if kw != [] && kw[|kw| - 1].0 != name {
      var init := kw[..|kw| - 1];
      assert forall k :: 0 <= k < |init| ==> init[k] == kw[k];
      LastValueAcceptable(init, name, d);
    }
  }

  /** Counting words is the default, so asking for the picture count alone
      raises; switching the word count off as well is accepted. */
  lemma PictureCountNeedsWordsOff()
    ensures SetParamsSpec(DefaultFlags, [("countPict", PBool(true))]).1 == Some(CountBoth)
    ensures SetParamsSpec(DefaultFlags, [("countWord", PBool(false)), ("countPict", PBool(true))]).1 == None
    ensures SetParamsSpec(DefaultFlags, [("countWord", PInt(0)), ("countPict", PInt(1))]).1 == None
    ensures SetParamsSpec(DefaultFlags, [("full", PStr("yes"))]).1 == Some(IllegalParam("full", PStr("yes")))
    ensures SetParamsSpec(DefaultFlags, [("color", PBool(true))]).1 == Some(UnknownParam("color"))
  {
    var kw := [("countWord", PBool(false)), ("countPict", PBool(true))];
    assert kw[..1] == [("countWord", PBool(false))];
    var kw' := [("countWord", PInt(0)), ("countPict", PInt(1))];
    assert kw'[..1] == [("countWord", PInt(0))];
  }

  // ---------------------------------------------------------------------
  // Zone markers

  /** The zone names `self.zones` registers. */
  const Zones: seq<string> := ["head", "body", "tail"]

  /** The position after the run of ASCII spaces starting at `i`. */
  function SkipBlanks(t: string, i: nat): (j: nat)
    requires i <= |t|
    ensures i <= j <= |t|
    decreases |t| - i
  {
    if i < |t| && t[i] == ' ' then SkipBlanks(t, i + 1) else i
  }

  /** The end of the run of non-whitespace characters starting at `i`. */
  function RunEnd(t: string, i: nat): (j: nat)
    requires i <= |t|
    ensures i <= j <= |t|
    decreases |t| - i
  {
    if i < |t| && !IsSpace(t[i]) then RunEnd(t, i + 1) else i
  }

  /** `SkipBlanks` stops at the first character that is not a space. */
  lemma {:induction false} SkipBlanksOver(t: string, i: nat, n: nat)
    requires i + n <= |t| && forall k :: i <= k < i + n ==> t[k] == ' '
    requires i + n == |t| || t[i + n] != ' '
    ensures SkipBlanks(t, i) == i + n
    decreases n
  {
    if n > 0 {
      SkipBlanksOver(t, i + 1, n - 1);
    }
  }

  /** `RunEnd` stops at the first whitespace character. */
  lemma {:induction false} RunEndOver(t: string, i: nat, n: nat)
    requires i + n <= |t| && forall k :: i <= k < i + n ==> !IsSpace(t[k])
    requires i + n == |t| || IsSpace(t[i + n])
    ensures RunEnd(t, i) == i + n
    decreases n
  {
    if n > 0 {
      RunEndOver(t, i + 1, n - 1);
    }
  }

  /** `RunEnd` passes over non-whitespace only. */
  lemma {:induction false} RunEndNoSpace(t: string, i: nat)
    requires i <= |t|
    ensures forall k :: i <= k < RunEnd(t, i) ==> !IsSpace(t[k])
    decreases |t| - i
  {
    if i < |t| && !IsSpace(t[i]) {
      RunEndNoSpace(t, i + 1);
    }
  }

  /** `[ ]*%}` matches at position `q`. */
  predicate ClosesAt(t: string, q: nat)
    requires q <= |t|
  {
    var j := SkipBlanks(t, q);
    j + 2 <= |t| && t[j] == '%' && t[j + 1] == '}'
  }

  /** The greedy `(\S+)` when the group starts at `p` and the run of
      non-whitespace may reach `q`: the last end, `p < end <= q`, after
      which `[ ]*%}` follows. */
  function LastClose(t: string, p: nat, q: nat): (r: Option<nat>)
    requires p <= q <= |t|
    ensures r.Some? ==> p < r.value <= q
    decreases q
  {
    if q == p then None else if ClosesAt(t, q) then Some(q) else LastClose(t, p, q - 1)
  }

  /** `LastClose` finds the last end that `[ ]*%}` follows, and none when
      there is no such end. */
  lemma {:induction false} LastCloseGreedy(t: string, p: nat, q: nat)
    requires p <= q <= |t|
    ensures LastClose(t, p, q).Some? ==> ClosesAt(t, LastClose(t, p, q).value)
    ensures LastClose(t, p, q).Some? ==> forall k :: LastClose(t, p, q).value < k <= q ==> !ClosesAt(t, k)
    ensures LastClose(t, p, q).None? ==> forall k :: p < k <= q ==> !ClosesAt(t, k)
    decreases q
  {
    if q > p && !ClosesAt(t, q) {
      LastCloseGreedy(t, p, q - 1);
    }
  }

  /** `reZone.match(t).group(1)` for the pattern `^[ ]*{%[ ]*(\S+)[ ]*%}.*$`
      with DOTALL, `None` when it does not match: the group is the longest
      run of non-whitespace after `{%` and its blanks that `[ ]*%}` can
      still follow. */
  function ZoneName(t: string): Option<string> {
    var i := SkipBlanks(t, 0);
    if !(i + 2 <= |t| && t[i] == '{' && t[i + 1] == '%') then None
    else
      var p := SkipBlanks(t, i + 2);
      match LastClose(t, p, RunEnd(t, p))
      case None => None
      case Some(q) => Some(t[p..q])
  }

  /** The name read from a marker is never empty and holds no whitespace. */
  lemma ZoneNameWord(t: string)
    requires ZoneName(t).Some?
    ensures |ZoneName(t).value| > 0 && NoSpace(ZoneName(t).value)
  {
    var i := SkipBlanks(t, 0);
    var p := SkipBlanks(t, i + 2);
    RunEndNoSpace(t, p);
  }

  function Blanks(n: nat): (r: string)
    ensures |r| == n && forall k :: 0 <= k < n ==> r[k] == ' '
  {
    seq(n, _ => ' ')
  }

  /** A marker written `{%`, blanks, a name, at least one blank, `%}`, and
      anything after it, is read as that name. */
  lemma ZoneNameOf(pad: nat, name: string, gap: nat, rest: string)
    requires |name| > 0 && NoSpace(name) && gap > 0
    ensures ZoneName("{%" + Blanks(pad) + name + Blanks(gap) + "%}" + rest) == Some(name)
  {
    var t := "{%" + Blanks(pad) + name + Blanks(gap) + "%}" + rest;
    var p := 2 + pad;
    var e := p + |name|;
    MarkerLayout(pad, name, gap, rest);
    SkipBlanksOver(t, 2, pad);
    RunEndOver(t, p, |name|);
    SkipBlanksOver(t, e, gap);
    ZoneNameAt(t, p, e);
  }

  /** Where the pieces of such a marker sit. */
  lemma MarkerLayout(pad: nat, name: string, gap: nat, rest: string)
    requires |name| > 0 && NoSpace(name) && gap > 0
    ensures var t := "{%" + Blanks(pad) + name + Blanks(gap) + "%}" + rest;
      var p := 2 + pad;
      var e := p + |name|;
      && e + gap + 2 <= |t| && t[0] == '{' && t[1] == '%' && t[p..e] == name
      && (forall k :: 2 <= k < p ==> t[k] == ' ')
      && (forall k :: p <= k < e ==> !IsSpace(t[k]))
      && (forall k :: e <= k < e + gap ==> t[k] == ' ')
      && t[p] != ' ' && IsSpace(t[e]) && t[e + gap] == '%' && t[e + gap + 1] == '}'
  {
    var front := "{%" + Blanks(pad);
    var back := Blanks(gap) + "%}" + rest;
    var t := "{%" + Blanks(pad) + name + Blanks(gap) + "%}" + rest;
    assert t == front + name + back;
    var p := 2 + pad;
    var e := p + |name|;
    assert t[..p] == front && t[p..e] == name && t[e..] == back;
    assert forall k :: 2 <= k < p ==> t[k] == front[k];
    assert forall k :: p <= k < e ==> t[k] == name[k - p];
    assert forall k :: e <= k < e + gap ==> t[k] == back[k - e];
    assert t[p] == name[0] && !IsSpace(name[0]);
  }

  /** When the name starts at `p`, its run of non-whitespace ends at `e`
      and `[ ]*%}` follows there, the name is `t[p..e]`. */
  lemma ZoneNameAt(t: string, p: nat, e: nat)
    requires 2 <= |t| && t[0] == '{' && t[1] == '%'
    requires p < e <= |t| && SkipBlanks(t, 2) == p && RunEnd(t, p) == e && ClosesAt(t, e)
    ensures ZoneName(t) == Some(t[p..e])
  {
    SkipBlanksOver(t, 0, 0);
  }

  /** The group is greedy: with no blank before `%}` it reaches to the last
      `%}` that closes a run of non-whitespace. */
  lemma ZoneNameGreedy()
    ensures ZoneName("{%body%}x%}") == Some("body%}x")
  {
    var t := "{%body%}x%}";
    SkipBlanksOver(t, 0, 0);
    SkipBlanksOver(t, 2, 0);
    RunEndOver(t, 2, 9);
    SkipBlanksOver(t, 11, 0);
    SkipBlanksOver(t, 10, 0);
    SkipBlanksOver(t, 9, 0);
    assert !ClosesAt(t, 11) && !ClosesAt(t, 10) && ClosesAt(t, 9);
    assert LastClose(t, 2, 11) == Some(9);
    assert t[2..9] == "body%}x";
  }

  /** Without the blank the name still stops before a final `%}`. */
  lemma ZoneNameTight()
    ensures ZoneName("{%body%}") == Some("body")
  {
    var u := "{%body%}";
    SkipBlanksOver(u, 2, 0);
    RunEndOver(u, 2, 6);
    SkipBlanksOver(u, 8, 0);
    SkipBlanksOver(u, 7, 0);
    SkipBlanksOver(u, 6, 0);
    SkipBlanksOver(u, 0, 0);
    assert !ClosesAt(u, 8) && !ClosesAt(u, 7) && ClosesAt(u, 6);
    assert LastClose(u, 2, 8) == Some(6);
    assert u[2..6] == "body";
  }

  /** A marker with no name does not match. */
  lemma ZoneNameEmpty()
    ensures ZoneName("{% %}") == None
  {
    var v := "{% %}";
    SkipBlanksOver(v, 0, 0);
    SkipBlanksOver(v, 2, 1);
    RunEndOver(v, 3, 2);
    SkipBlanksOver(v, 5, 0);
    SkipBlanksOver(v, 4, 0);
  }

  /** `reEndZone.match(info)` for `^end(\S+)$`, on a name that holds no
      whitespace. */
  predicate IsEnd(info: string) {
    |info| > 3 && info[..3] == "end"
  }

  /** Its group: the zone an end marker closes. */
  function EndOf(info: string): (zone: string)
    requires IsEnd(info)
    ensures info == "end" + zone
  {
    info[3..]
  }

  /** `_asZone` on the lower-cased marker name `info`, with `cur` the zone
      the converter is in (`""` for none): an end marker closes the open
      zone it names; a start marker opens a registered zone when none is
      open; everything else raises. */
  function ZoneStep(cur: string, info: string): (r: Outcome<string>)
    ensures IsEnd(info) ==> (r.Done? <==> EndOf(info) in Zones && cur == EndOf(info))
    ensures !IsEnd(info) ==> (r.Done? <==> info in Zones && cur == "")
    ensures r.Done? ==> r.value == if IsEnd(info) then "" else info
    ensures IsEnd(info) && EndOf(info) in Zones && cur == "" ==> r == Raised(UnexpectedEnd(EndOf(info)))
    ensures !IsEnd(info) && info in Zones && cur != "" ==> r == Raised(MissingEndBefore(cur, info))
  {
    if IsEnd(info) then
      var zone := EndOf(info);
      if zone !in Zones then Raised(IllegalZone(zone, info))
      else if cur == "" then Raised(UnexpectedEnd(zone))
      else if zone != cur then Raised(Unpaired(zone, cur))
      else Done("")
    else
      var zone := info;
      if zone !in Zones then Raised(IllegalZone(zone, info))
      else if cur != "" then Raised(MissingEndBefore(cur, zone))
      else Done(zone)
  }

  /** No registered zone name looks like an end marker, and `end` followed
      by one is the end marker of that zone. */
  lemma ZoneNames(zone: string)
    requires zone in Zones
    ensures !IsEnd(zone) && zone != ""
    ensures IsEnd("end" + zone) && EndOf("end" + zone) == zone
  {
    assert ("end" + zone)[..3] == "end";
    assert zone == "head" || zone == "body" || zone == "tail";
    assert zone[..3] == "hea" || zone[..3] == "bod" || zone[..3] == "tai";
  }

  // ---------------------------------------------------------------------
  // Reading the paragraphs

  /** A `w:p` paragraph as `_code` sees it: its text, whether it holds a
      drawing or a picture, whether `_isNextToImg` holds for it (the
      nearest earlier sibling paragraph with text or a picture has a
      picture), whether `_get_align` gives "center", and its `w:b` mark. */
  datatype Paragraph = Paragraph(text: string, picture: bool, nextToImage: bool, centred: bool, bold: BoldMark)

  /** The converter's zone and counters, and the number of `br` sections
      in the body section, which `back()` takes from. */
  datatype Tally = Tally(inZone: string, wordSum: nat, pictSum: nat, breaks: nat)

  /** The text starts with `#` once stripped: a comment. */
  predicate IsComment(p: Paragraph) {
    IsPrefix("#", Strip(p.text))
  }

  /** The lower-cased name of the zone marker a paragraph is, if it is
      one and not a comment. */
  function MarkerOf(p: Paragraph): Option<string> {
    if IsComment(p) then None
    else
      match ZoneName(Strip(p.text))
      case None => None
      case Some(name) => Some(Lower(name))
  }

  /** The body paragraphs for which `_asBody` calls `back()` first: a
      picture next to a picture, and a centred caption that is not bold,
      which goes to `pNote`. */
  predicate Backs(p: Paragraph) {
    if p.picture then p.nextToImage else Strip(p.text) != [] && p.centred && !IsBold(p.bold)
  }

  /** `_asBody` and `_asBodyText`: a picture counts one and its section
      ends with a `br`; a paragraph with text counts the characters of its
      stripped text and ends with a `br`; an empty one does nothing. Where
      `back()` comes first it removes the last `br` of the body, and raises
      `IndexError` when there is none yet. */
  function BodyStep(t: Tally, p: Paragraph): (r: Outcome<Tally>)
    ensures r.Raised? <==> Backs(p) && t.breaks == 0
    ensures r.Raised? ==> r.error == Python(IndexError)
    ensures r.Done? ==> r.value.inZone == t.inZone
    ensures r.Done? && p.picture ==> r.value.pictSum == t.pictSum + 1 && r.value.wordSum == t.wordSum
    ensures r.Done? && !p.picture ==> r.value.pictSum == t.pictSum && r.value.wordSum == t.wordSum + |Strip(p.text)|
    ensures r.Done? ==>
      r.value.breaks == if Backs(p) || (!p.picture && Strip(p.text) == []) then t.breaks else t.breaks + 1
  {
    if p.picture then
      if p.nextToImage && t.breaks == 0 then Raised(Python(IndexError))
      else
        var kept := if p.nextToImage then t.breaks - 1 else t.breaks;
        Done(t.(pictSum := t.pictSum + 1, breaks := kept + 1))
    else if Strip(p.text) != [] then
      if p.centred && !IsBold(p.bold) then
        if t.breaks == 0 then Raised(Python(IndexError))
        else Done(t.(wordSum := t.wordSum + |Strip(p.text)|, breaks := t.breaks - 1 + 1))
      else Done(t.(wordSum := t.wordSum + |Strip(p.text)|, breaks := t.breaks + 1))
    else Done(t)
  }

  /** `BodyStep` on a paragraph that is no picture, case by case, given
      its stripped text and whether it goes to `pNote`. */
  lemma BodyStepText(t: Tally, p: Paragraph, text: string, note: bool)
    requires !p.picture && text == Strip(p.text) && note == (p.centred && !IsBold(p.bold))
    ensures text == [] ==> BodyStep(t, p) == Done(t)
    ensures text != [] && note && t.breaks == 0 ==> BodyStep(t, p) == Raised(Python(IndexError))
    ensures text != [] && !(note && t.breaks == 0) ==>
      BodyStep(t, p) == Done(Tally(t.inZone, t.wordSum + |text|, t.pictSum, if note then t.breaks else t.breaks + 1))
  {
  }

  /** One turn of the loop of `_code`: comments are skipped, markers go to
      `_asZone`, other paragraphs are counted when they are in the body. */
  function Step(t: Tally, p: Paragraph): (r: Outcome<Tally>)
  {
    if IsComment(p) then Done(t)
    else
      match ZoneName(Strip(p.text))
      case Some(name) =>
        (match ZoneStep(t.inZone, Lower(name))
         case Done(z) => Done(t.(inZone := z))
         case Raised(e) => Raised(e))
      case None => if t.inZone == "body" then BodyStep(t, p) else Done(t)
  }

  /** A loop over the paragraphs that applies `step` to each in turn and
      stops at the first exception, with the tally as it stood then. */
  function Loop(step: (Tally, Paragraph) -> Outcome<Tally>, t: Tally, ps: seq<Paragraph>): (r: (Tally, Option<CoderError>))
    decreases |ps|
  {
    if ps == [] then (t, None)
    else
      var (u, e) := Loop(step, t, ps[..|ps| - 1]);
      if e.Some? then (u, e)
      else
        match step(u, ps[|ps| - 1])
        case Done(v) => (v, None)
        case Raised(x) => (u, Some(x))
  }

  /** One turn of the loop of `_code` as written: for a picture next to an
      earlier picture, `_asBody` first calls `self.back(inSec="body")`, and
      `back` has no parameter `inSec`, so Python raises `TypeError` before
      the picture is counted. */
  function StepAsWritten(t: Tally, p: Paragraph): Outcome<Tally> {
    if !IsComment(p) && ZoneName(Strip(p.text)).None? && t.inZone == "body" && p.picture && p.nextToImage
    then Raised(Python(TypeError))
    else Step(t, p)
  }

  /** A picture right after a picture in the body stops the conversion as
      written, where `Step` takes back the blank line and counts it. */
  lemma PictureAfterPicture(t: Tally, p: Paragraph)
    requires t.inZone == "body" && p.picture && p.nextToImage && Strip(p.text) == []
    ensures StepAsWritten(t, p) == Raised(Python(TypeError))
    ensures Step(t, p) == if t.breaks == 0 then Raised(Python(IndexError)) else Done(t.(pictSum := t.pictSum + 1))
  {
    assert !IsPrefix("#", Strip(p.text));
    assert SkipBlanks(Strip(p.text), 0) == 0;
  }

  /** The loop of `_code` over the paragraphs. */
  function Scan(t: Tally, ps: seq<Paragraph>): (Tally, Option<CoderError>) {
    Loop(Step, t, ps)
  }

  /** The loop of `_code` as written. */
  function ScanAsWritten(t: Tally, ps: seq<Paragraph>): (Tally, Option<CoderError>) {
    Loop(StepAsWritten, t, ps)
  }

  /** Wherever the loop as written reaches the body, a picture without text
      next to an earlier picture stops it with `TypeError`, and nothing after
      it is read; the corrected loop counts that picture and goes on. */
  lemma PictureAfterPictureStops(t: Tally, before: seq<Paragraph>, p: Paragraph, after: seq<Paragraph>)
    requires ScanAsWritten(t, before).1.None? && ScanAsWritten(t, before).0.inZone == "body"
    requires Scan(t, before) == ScanAsWritten(t, before)
    requires p.picture && p.nextToImage && p.text == []
    ensures ScanAsWritten(t, before + [p] + after) == (ScanAsWritten(t, before).0, Some(Python(TypeError)))
    ensures var u := Scan(t, before).0; u.breaks > 0 ==> Scan(t, before + [p]) == (u.(pictSum := u.pictSum + 1), None)
  {
    var u := Scan(t, before).0;
    assert Strip(p.text) == [];
    PictureAfterPicture(u, p);
    LoopSnoc(StepAsWritten, t, before, p);
    LoopSnoc(Step, t, before, p);
    var all := before + [p] + after;
    assert all[..|before| + 1] == before + [p];
    LoopStops(StepAsWritten, t, all, |before| + 1);
  }

  /** One more turn of the loop. */
  lemma LoopSnoc(step: (Tally, Paragraph) -> Outcome<Tally>, t: Tally, ps: seq<Paragraph>, p: Paragraph)
    ensures var before := Loop(step, t, ps);
      Loop(step, t, ps + [p]) ==
        if before.1.Some? then before
        else if step(before.0, p).Done? then (step(before.0, p).value, None)
        else (before.0, Some(step(before.0, p).error))
  {
    assert (ps + [p])[..|ps + [p]| - 1] == ps;
  }

  /** `_code` after the loop: a zone still open raises. */
  function Finish(r: (Tally, Option<CoderError>)): (s: (Tally, Option<CoderError>))
    ensures s.0 == r.0
    ensures s.1.None? <==> r.1.None? && r.0.inZone == ""
  {
    if r.1.Some? then r
    else if r.0.inZone != "" then (r.0, Some(MissingEnd(r.0.inZone)))
    else r
  }

  /** The marker names of the paragraphs, in order. */
  function Markers(ps: seq<Paragraph>): seq<string>
    decreases |ps|
  {
    if ps == [] then []
    else
      Markers(ps[..|ps| - 1]) +
        match MarkerOf(ps[|ps| - 1]) case None => [] case Some(m) => [m]
  }

  /** `_asZone` over a sequence of marker names. */
  function ZoneRun(cur: string, ms: seq<string>): Outcome<string>
    decreases |ms|
  {
    if ms == [] then Done(cur)
    else
      match ZoneRun(cur, ms[..|ms| - 1])
      case Raised(e) => Raised(e)
      case Done(c) => ZoneStep(c, ms[|ms| - 1])
  }

  /** Markers that pair up: each registered zone opened and, right after,
      closed again. */
  predicate Balanced(ms: seq<string>)
    decreases |ms|
  {
    ms == [] ||
    (|ms| >= 2 && ms[|ms| - 2] in Zones && ms[|ms| - 1] == "end" + ms[|ms| - 2] && Balanced(ms[..|ms| - 2]))
  }

  /** Balanced markers followed by the opening of a zone. */
  predicate OpenAfterBalanced(ms: seq<string>) {
    |ms| > 0 && ms[|ms| - 1] in Zones && Balanced(ms[..|ms| - 1])
  }

  /** A centred caption that is not bold as the first paragraph of the body
      goes to `pNote`, whose `back()` finds no `br` in the body yet: the
      conversion stops with `IndexError`. */
  lemma CaptionFirstRaises(t: Tally, open: Paragraph, caption: Paragraph)
    requires t.inZone == "" && t.breaks == 0
    requires MarkerOf(open) == Some("body")
    requires !IsComment(caption) && ZoneName(Strip(caption.text)).None?
    requires !caption.picture && Strip(caption.text) != [] && caption.centred && !IsBold(caption.bold)
    ensures Scan(t, [open, caption]) == (t.(inZone := "body"), Some(Python(IndexError)))
  {
    OpensBody(t, open);
    NoteRaises(t.(inZone := "body"), caption);
    LoopTwo(Step, t, open, caption);
  }

  /** Two paragraphs: the second is read in the state the first leaves. */
  lemma LoopTwo(step: (Tally, Paragraph) -> Outcome<Tally>, t: Tally, a: Paragraph, b: Paragraph)
    requires step(t, a).Done?
    ensures Loop(step, t, [a, b]) ==
      match step(step(t, a).value, b)
      case Done(v) => (v, None)
      case Raised(x) => (step(t, a).value, Some(x))
  {
    assert [a][..0] == [];
    assert Loop(step, t, [a]) == (step(t, a).value, None);
    assert [a, b][..1] == [a];
  }

  /** `pNote` in a body with no `br` yet raises `IndexError`. */
  lemma NoteRaises(u: Tally, caption: Paragraph)
    requires u.inZone == "body" && u.breaks == 0
    requires !IsComment(caption) && ZoneName(Strip(caption.text)).None?
    requires !caption.picture && Strip(caption.text) != [] && caption.centred && !IsBold(caption.bold)
    ensures Step(u, caption) == Raised(Python(IndexError))
  {
  }

  /** The marker `{%body%}`, in any case, outside any zone opens the body. */
  lemma OpensBody(t: Tally, open: Paragraph)
    requires t.inZone == ""
    requires MarkerOf(open) == Some("body")
    ensures Step(t, open) == Done(t.(inZone := "body"))
  {
    ZoneNames("body");
  }

  /** The paragraphs that are not markers leave the zone alone: unless a
      `back()` in the body raises `IndexError` first, what the loop decides
      about zones is what `_asZone` decides about the marker names alone. */
  lemma {:induction false} ScanZones(t: Tally, ps: seq<Paragraph>)
    ensures Scan(t, ps).1 != Some(Python(IndexError)) ==>
      (Scan(t, ps).1.None? <==> ZoneRun(t.inZone, Markers(ps)).Done?)
    ensures Scan(t, ps).1.None? ==> Scan(t, ps).0.inZone == ZoneRun(t.inZone, Markers(ps)).value
    ensures Scan(t, ps).1.Some? && Scan(t, ps).1 != Some(Python(IndexError)) ==>
      ZoneRun(t.inZone, Markers(ps)) == Raised(Scan(t, ps).1.value)
    decreases |ps|
  {
    if ps != [] {
      var init := ps[..|ps| - 1];
      var p := ps[|ps| - 1];
      ScanZones(t, init);
      match MarkerOf(p)
      case None =>
        assert Markers(ps) == Markers(init);
      case Some(m) =>
        var ms := Markers(ps);
        assert ms[..|ms| - 1] == Markers(init) && ms[|ms| - 1] == m;
    }
  }

  /** Starting outside any zone, `_asZone` ends outside any zone exactly
      when the markers pair up, and inside a zone exactly when they pair
      up and then open that zone. */
  lemma {:induction false} ZoneRunBalanced(ms: seq<string>)
    ensures ZoneRun("", ms) == Done("") <==> Balanced(ms)
    ensures (ZoneRun("", ms).Done? && ZoneRun("", ms).value != "") <==> OpenAfterBalanced(ms)
    ensures OpenAfterBalanced(ms) ==> ZoneRun("", ms) == Done(ms[|ms| - 1])
    decreases |ms|
  {
    if ms != [] {
      var init := ms[..|ms| - 1];
      var m := ms[|ms| - 1];
      ZoneRunBalanced(init);
      if |ms| >= 2 {
        assert init[..|init| - 1] == ms[..|ms| - 2] && init[|init| - 1] == ms[|ms| - 2];
        ZoneRunBalanced(ms[..|ms| - 2]);
      }
      if m in Zones {
        ZoneNames(m);
      }
      if |ms| >= 2 && init[|init| - 1] in Zones {
        ZoneNames(init[|init| - 1]);
      }
      if IsEnd(m) {
        assert m == "end" + EndOf(m);
      }
    }
  }

  /** `_code` on a converter outside any zone gets through the zone checks
      exactly when the markers pair up, unless a `back()` raises
      `IndexError` first; comments, blank and ordinary paragraphs play no
      other part. */
  lemma CodeBalanced(t: Tally, ps: seq<Paragraph>)
    requires t.inZone == ""
    ensures Finish(Scan(t, ps)).1.None? ==> Balanced(Markers(ps))
    ensures Scan(t, ps).1 != Some(Python(IndexError)) ==> (Finish(Scan(t, ps)).1.None? <==> Balanced(Markers(ps)))
  {
    ScanZones(t, ps);
    ZoneRunBalanced(Markers(ps));
  }

  /** A marker left open at the end is reported by name, unless a
      `back()` raised `IndexError` before. */
  lemma CodeMissingEnd(t: Tally, ps: seq<Paragraph>)
    requires t.inZone == "" && OpenAfterBalanced(Markers(ps))
    ensures Scan(t, ps).1 != Some(Python(IndexError)) ==>
      Finish(Scan(t, ps)).1 == Some(MissingEnd(Markers(ps)[|Markers(ps)| - 1]))
  {
    ScanZones(t, ps);
    ZoneRunBalanced(Markers(ps));
  }

  /** A paragraph the step leaves alone can be dropped, wherever it
      stands. */
  lemma {:induction false} LoopSkips(step: (Tally, Paragraph) -> Outcome<Tally>, t: Tally,
                                     before: seq<Paragraph>, c: Paragraph, after: seq<Paragraph>)
    requires forall u :: step(u, c) == Done(u)
    ensures Loop(step, t, before + [c] + after) == Loop(step, t, before + after)
    decreases |after|
  {
    if after == [] {
      assert (before + [c] + after)[..|before| + 1 - 1] == before;
      assert before + after == before;
    } else {
      var init := after[..|after| - 1];
      LoopSkips(step, t, before, c, init);
      assert (before + [c] + after)[..|before + [c] + after| - 1] == before + [c] + init;
      assert (before + after)[..|before + after| - 1] == before + init;
    }
  }

  /** A comment paragraph changes nothing, wherever it stands. */
  lemma ScanSkipsComment(t: Tally, before: seq<Paragraph>, c: Paragraph, after: seq<Paragraph>)
    requires IsComment(c)
    ensures Scan(t, before + [c] + after) == Scan(t, before + after)
  {
    LoopSkips(Step, t, before, c, after);
  }

  /** Once the loop has raised, later paragraphs are not read. */
  lemma {:induction false} LoopStops(step: (Tally, Paragraph) -> Outcome<Tally>, t: Tally, ps: seq<Paragraph>, i: nat)
    requires i <= |ps| && Loop(step, t, ps[..i]).1.Some?
    ensures Loop(step, t, ps) == Loop(step, t, ps[..i])
    decreases |ps| - i
  {
    if i < |ps| {
      assert ps[..i + 1][..i] == ps[..i];
      LoopStops(step, t, ps, i + 1);
    } else {
      assert ps[..i] == ps;
    }
  }

  /** One paragraph adds at most one picture, and takes nothing away. */
  lemma StepCounts(t: Tally, p: Paragraph)
    requires Step(t, p).Done?
    ensures Step(t, p).value.wordSum >= t.wordSum
    ensures t.pictSum <= Step(t, p).value.pictSum <= t.pictSum + 1
  {
  }

  /** The counters only grow, and the picture count by at most one a
      paragraph. */
  lemma {:induction false} ScanCounts(t: Tally, ps: seq<Paragraph>)
    ensures Scan(t, ps).0.wordSum >= t.wordSum && Scan(t, ps).0.pictSum >= t.pictSum
    ensures Scan(t, ps).0.pictSum <= t.pictSum + |ps|
    decreases |ps|
  {
    if ps != [] {
      var init := ps[..|ps| - 1];
      ScanCounts(t, init);
      var (u, e) := Scan(t, init);
      if e.None? && Step(u, ps[|ps| - 1]).Done? {
        StepCounts(u, ps[|ps| - 1]);
      }
    }
  }

  // ---------------------------------------------------------------------
  // Reading time, bold paragraphs

  /** `_get_readTime` when pictures are counted: 3 minutes under 20
      pictures, 4 under 30, 5 at 30, then one more per 20 pictures past
      31. */
  function PictMinutes(n: nat): (m: int)
  {
    if 0 <= n < 20 then 3
    else if 20 <= n < 30 then 4
    else if n == 30 then 5
    else 5 + (n - 31) / 20
  }

  /** `_get_readTime`: a word count reads at 600 characters a minute; with
      neither count switched on the method returns `None`. */
  function ReadTime(countWord: PyVal, countPict: PyVal, wordSum: nat, pictSum: nat): (r: Option<int>)
    ensures Truthy(countWord) ==> r == Some(wordSum / 600)
    ensures !Truthy(countWord) && Truthy(countPict) ==> r == Some(PictMinutes(pictSum))
    ensures r.None? <==> !Truthy(countWord) && !Truthy(countPict)
  {
    if Truthy(countWord) then Some(wordSum / 600)
    else if Truthy(countPict) then Some(PictMinutes(pictSum))
    else None
  }

  /** The picture-based reading time is never below 3 minutes and
      never decreases as pictures are added. */
  lemma PictMinutesMonotone(m: nat, n: nat)
    requires m <= n
    ensures 3 <= PictMinutes(m) <= PictMinutes(n)
  {
    if m >= 31 {
      Div20Monotone(m - 31, n - 31);
    }
  }

  lemma Div20Monotone(a: nat, b: nat)
    requires a <= b
    ensures a / 20 <= b / 20
  {
  }

  /** Past 31 pictures, every 20 more add a minute. */
  lemma PictMinutesStep(n: nat)
    requires n >= 31
    ensures PictMinutes(n + 20) == PictMinutes(n) + 1
  {
    assert (n + 20 - 31) / 20 == (n - 31) / 20 + 1;
  }

  /** The `w:b` element of a paragraph: absent, or present with its
      `w:val` attribute, if any. */
  datatype BoldMark = NoBold | Bold(val: Option<string>)

  /** `_isBold`: no `w:b` means not bold; `w:b` without a value or with an
      empty one means bold; `"false"` means not bold; any other value
      bold. */
  function IsBold(b: BoldMark): (r: bool)
    ensures b.NoBold? ==> !r
    ensures b.Bold? && (b.val.None? || b.val == Some([])) ==> r
    ensures b == Bold(Some("false")) ==> !r
    ensures b.Bold? && b.val.Some? && b.val.value != [] && b.val.value != "false" ==> r
  {
    match b
    case NoBold => false
    case Bold(val) =>
      if val.None? || val.value == [] then true
      else if val.value == "false" then false
      else true
  }

  // ---------------------------------------------------------------------
  // Half-width to full-width

  /** `transDict` in its iteration order: the ASCII space becomes the
      ideographic space, the bar the full-width bar. */
  const TransPairs: seq<(char, char)> := [(' ', '　'), ('|', '｜')]

  /** `to.join([sec for sec in text.strip().split(from) if sec])`. */
  function Retext(text: string, from: char, to: char): string {
    Join([to], Collections.Filter(SplitOn(Strip(text), from), (sec: string) => sec != []))
  }

  /** The loop of `to_SBC_case` over the first `|pairs|` translations. */
  function SbcFold(text: string, pairs: seq<(char, char)>, reverse: bool): string
    decreases |pairs|
  {
    if pairs == [] then text
    else
      var t := SbcFold(text, pairs[..|pairs| - 1], reverse);
      var (dbc, sbc) := pairs[|pairs| - 1];
      if !reverse then Retext(t, dbc, sbc) else Retext(t, sbc, dbc)
  }

  /** One more translation rewrites the text once more. */
  lemma SbcFoldStep(text: string, pairs: seq<(char, char)>, i: nat, reverse: bool)
    requires i < |pairs|
    ensures var t := SbcFold(text, pairs[..i], reverse);
      SbcFold(text, pairs[..i + 1], reverse) ==
        if !reverse then Retext(t, pairs[i].0, pairs[i].1) else Retext(t, pairs[i].1, pairs[i].0)
  {
    assert pairs[..i + 1][..i] == pairs[..i];
  }

  /** `to_SBC_case(text, reverse)`: each translation in turn rewrites the
      stripped text, dropping empty pieces, so runs of separators collapse
      into one. */
  method ToSbcCase(text: string, reverse: bool) returns (r: string)
    ensures r == SbcFold(text, TransPairs, reverse)
  {
    r := text;
    var i := 0;
    while i < |TransPairs|
      invariant 0 <= i <= |TransPairs|
      invariant r == SbcFold(text, TransPairs[..i], reverse)
    {
      var (dbc, sbc) := TransPairs[i];
      SbcFoldStep(text, TransPairs, i, reverse);
      if !reverse {
        r := Retext(r, dbc, sbc);
      } else {
        r := Retext(r, sbc, dbc);
      }
      i := i + 1;
    }
    assert TransPairs[..i] == TransPairs;
  }

  /** The rewritten text holds neither the separator it splits on nor a
      character the input lacked, other than the one it joins with. */
  lemma RetextLacks(text: string, from: char, to: char, c: char)
    requires c != to && (c == from || c !in text)
    ensures c !in Retext(text, from, to)
  {
    var pieces := SplitOn(Strip(text), from);
    var kept := Collections.Filter(pieces, (sec: string) => sec != []);
    forall i | 0 <= i < |kept|
      ensures c !in kept[i]
    {
      assert kept[i] in pieces;
      if c != from && c in kept[i] {
        StripIn(text, c);
      }
    }
    JoinLacks([to], kept, c);
  }

  /** Converted to full width, a text holds no ASCII space and no bar. */
  lemma SbcForwardClean(text: string)
    ensures ' ' !in SbcFold(text, TransPairs, false)
    ensures '|' !in SbcFold(text, TransPairs, false)
  {
    var t1 := Retext(text, ' ', '　');
    SbcFirstPass(text, false);
    RetextLacks(text, ' ', '　', ' ');
    RetextLacks(t1, '|', '｜', ' ');
    RetextLacks(t1, '|', '｜', '|');
  }

  /** Converted back, a text holds no ideographic space and no full-width
      bar. */
  lemma SbcReverseClean(text: string)
    ensures '　' !in SbcFold(text, TransPairs, true)
    ensures '｜' !in SbcFold(text, TransPairs, true)
  {
    var t1 := Retext(text, '　', ' ');
    SbcFirstPass(text, true);
    RetextLacks(text, '　', ' ', '　');
    RetextLacks(t1, '｜', '|', '　');
    RetextLacks(t1, '｜', '|', '｜');
  }

  /** The two translations, one after the other. */
  lemma SbcFirstPass(text: string, reverse: bool)
    ensures var t1 := if reverse then Retext(text, '　', ' ') else Retext(text, ' ', '　');
      SbcFold(text, TransPairs, reverse) == if reverse then Retext(t1, '｜', '|') else Retext(t1, '|', '｜')
  {
    assert TransPairs[..1] == [(' ', '　')];
    assert TransPairs[..1][..0] == [];
  }

  /** Words without whitespace or bars, separated by single spaces, come
      out separated by ideographic spaces. */
  lemma SbcOfWords(words: seq<string>)
    requires |words| >= 1
    requires forall i :: 0 <= i < |words| ==> |words[i]| > 0 && NoSpace(words[i]) && '|' !in words[i]
    ensures SbcFold(Join(" ", words), TransPairs, false) == Join("　", words)
  {
    SbcFirstPass(Join(" ", words), false);
    SpacesToIdeographic(words);
    BarsUntouched(words);
  }

  /** The first translation turns the single spaces into ideographic
      ones. */
  lemma SpacesToIdeographic(words: seq<string>)
    requires |words| >= 1
    requires forall i :: 0 <= i < |words| ==> |words[i]| > 0 && NoSpace(words[i])
    ensures Retext(Join(" ", words), ' ', '　') == Join("　", words)
  {
    assert " " == [' '] && "　" == ['　'];
    RetextJoined(words, ' ', '　');
  }

  /** The second translation leaves a text without bars as it is. */
  lemma BarsUntouched(words: seq<string>)
    requires |words| >= 1
    requires forall i :: 0 <= i < |words| ==> |words[i]| > 0 && NoSpace(words[i]) && '|' !in words[i]
    ensures Retext(Join("　", words), '|', '｜') == Join("　", words)
  {
    var t1 := Join("　", words);
    JoinEnds("　", words);
    JoinLacks("　", words, '|');
    var last := words[|words| - 1];
    assert !IsSpace(words[0][0]) && !IsSpace(last[|last| - 1]);
    RetextWhole(t1, '|', '｜');
  }

  /** Non-empty pieces free of the separator, joined by it, with no
      whitespace at either end, are rejoined with the other character. */
  lemma RetextJoined(parts: seq<string>, from: char, to: char)
    requires |parts| >= 1
    requires forall i :: 0 <= i < |parts| ==> |parts[i]| > 0 && from !in parts[i]
    requires !IsSpace(parts[0][0]) && !IsSpace(parts[|parts| - 1][|parts[|parts| - 1]| - 1])
    ensures Retext(Join([from], parts), from, to) == Join([to], parts)
  {
    JoinEnds([from], parts);
    StripTrimmed(Join([from], parts));
    SplitOnJoin(parts, from);
    Collections.FilterAll(parts, (sec: string) => sec != []);
  }

  /** A text free of the separator, with no whitespace at either end, is
      left as it is. */
  lemma RetextWhole(s: string, from: char, to: char)
    requires |s| > 0 && from !in s && !IsSpace(s[0]) && !IsSpace(s[|s| - 1])
    ensures Retext(s, from, to) == s
  {
    assert [s][0] == s;
    RetextJoined([s], from, to);
  }

  /** A join of non-empty parts starts with the first part's first
      character and ends with the last part's last character. */
  lemma {:induction false} JoinEnds(sep: string, parts: seq<string>)
    requires |parts| >= 1 && forall i :: 0 <= i < |parts| ==> |parts[i]| > 0
    ensures var r := Join(sep, parts);
      |r| > 0 && r[0] == parts[0][0] && r[|r| - 1] == parts[|parts| - 1][|parts[|parts| - 1]| - 1]
    decreases |parts|
  {
    if |parts| > 1 {
      JoinEnds(sep, parts[1..]);
    }
  }

  // ---------------------------------------------------------------------
  // The converter object

  /** The state of an `HTMLcoder` the model keeps: the zone it is in, the
      run parameters and the two counters. */
  class HtmlCoder {
    var inZone: string
    var countWord: PyVal
    var countPict: PyVal
    var noRpt: PyVal
    var noRef: PyVal
    var full: PyVal
    var wordSum: nat
    var pictSum: nat
    var breaks: nat

    function Params(): Flags
      reads this
    {
      Flags(countWord, countPict, noRpt, noRef, full)
    }

    function State(): Tally
      reads this
    {
      Tally(inZone, wordSum, pictSum, breaks)
    }

    /** `__init__` up to its call of `_set_params`: outside any zone,
      counting words, nothing counted yet. */
    constructor ()
      ensures Params() == DefaultFlags && State() == Tally("", 0, 0, 0)
    {
      inZone := "";
      countWord := PBool(true);
      countPict := PBool(false);
      noRpt := PBool(false);
      noRef := PBool(false);
      full := PBool(false);
      wordSum := 0;
      pictSum := 0;
      breaks := 0;
    }

    /** `self.__dict__[name] = value`. */
    method Store(name: string, value: PyVal)
      requires name in ParamNames
      modifies this
      ensures Params() == SetFlag(old(Params()), name, value)
      ensures State() == old(State())
    {
      if name == "countWord" {
        countWord := value;
      } else if name == "countPict" {
        countPict := value;
      } else if name == "noRpt" {
        noRpt := value;
      } else if name == "noRef" {
        noRef := value;
      } else {
        full := value;
      }
    }

    /** `_set_params(kw)`, the keyword arguments in their order. */
    method SetParams(kw: seq<(string, PyVal)>) returns (err: Option<CoderError>)
      modifies this
      ensures (Params(), err) == SetParamsSpec(old(Params()), kw)
      ensures State() == old(State())
    {
      var i := 0;
      while i < |kw|
        invariant 0 <= i <= |kw|
        invariant ApplyParams(old(Params()), kw[..i]) == (Params(), None)
        invariant State() == old(State())
      {
        var (name, value) := kw[i];
        assert kw[..i + 1][..i] == kw[..i];
        if name !in ParamNames {
          err := Some(UnknownParam(name));
          ApplyParamsStops(old(Params()), kw, i + 1);
          return;
        }
        var ok := BoolLike(value);
        if ok.Err? {
          err := Some(Python(ok.error));
          ApplyParamsStops(old(Params()), kw, i + 1);
          return;
        }
        if !ok.value {
          err := Some(IllegalParam(name, value));
          ApplyParamsStops(old(Params()), kw, i + 1);
          return;
        }
        Store(name, value);
        i := i + 1;
      }
      assert kw[..i] == kw;
      if Truthy(countWord) && Truthy(countPict) {
        err := Some(CountBoth);
      } else {
        err := None;
      }
    }

    /** `_asZone` on a paragraph that `reZone` matches. */
    method AsZone(text: string) returns (err: Option<CoderError>)
      requires ZoneName(Strip(text)).Some?
      modifies this
      ensures var s := ZoneStep(old(inZone), Lower(ZoneName(Strip(text)).value));
        && (s.Done? ==> err == None && inZone == s.value)
        && (s.Raised? ==> err == Some(s.error) && inZone == old(inZone))
      ensures wordSum == old(wordSum) && pictSum == old(pictSum) && breaks == old(breaks) && Params() == old(Params())
    {
      var zoneInfo := Lower(ZoneName(Strip(text)).value);
      if IsEnd(zoneInfo) {
        var zone := EndOf(zoneInfo);
        if zone !in Zones {
          err := Some(IllegalZone(zone, zoneInfo));
        } else if inZone == "" {
          err := Some(UnexpectedEnd(zone));
        } else if zone != inZone {
          err := Some(Unpaired(zone, inZone));
        } else {
          inZone := "";
          err := None;
        }
      } else {
        var zone := zoneInfo;
        if zone !in Zones {
          err := Some(IllegalZone(zone, zoneInfo));
        } else if inZone != "" {
          err := Some(MissingEndBefore(inZone, zone));
        } else {
          inZone := zone;
          err := None;
        }
      }
    }

    /** `back()` in the body: the last `br` section is removed, and
      `find_all(...)[-1]` raises `IndexError` when there is none. */
    method Back() returns (err: Option<CoderError>)
      modifies this
      ensures err.None? <==> old(breaks) > 0
      ensures err.Some? ==> err == Some(Python(IndexError))
      ensures inZone == old(inZone) && wordSum == old(wordSum) && pictSum == old(pictSum)
      ensures breaks == if err.None? then old(breaks) - 1 else old(breaks)
      ensures Params() == old(Params())
    {
      if breaks == 0 {
        err := Some(Python(IndexError));
      } else {
        breaks := breaks - 1;
        err := None;
      }
    }

    /** `_asBody` as far as the counters and the blank lines go. */
    method AsBody(p: Paragraph) returns (err: Option<CoderError>)
      modifies this
      ensures BodyStep(old(State()), p) == if err.None? then Done(State()) else Raised(err.value)
      ensures err.Some? ==> State() == old(State())
      ensures Params() == old(Params())
    {
      if p.picture {
        ghost var t := State();
        err := None;
        if p.nextToImage {
          err := Back();
          if err.Some? {
            return;
          }
        }
        breaks := breaks + 1;
        pictSum := pictSum + 1;
        assert State() == t.(pictSum := t.pictSum + 1, breaks := breaks);
      } else if Strip(p.text) != [] {
        err := AsBodyText(p);
      } else {
        err := None;
      }
    }

    /** `_asBodyText`, called for a paragraph with text: a centred
      paragraph that is not bold goes to `pNote`, any other ends its
      section with a `br`; the stripped text is counted. */
    method AsBodyText(p: Paragraph) returns (err: Option<CoderError>)
      requires !p.picture && Strip(p.text) != []
      modifies this
      ensures BodyStep(old(State()), p) == if err.None? then Done(State()) else Raised(err.value)
      ensures err.Some? ==> State() == old(State())
      ensures Params() == old(Params())
    {
      ghost var t := State();
      var text := Strip(p.text);
      var note := p.centred && !IsBold(p.bold);
      if note {
        err := PNote();
        if err.Some? {
          BodyStepText(t, p, text, note);
          return;
        }
      } else {
        breaks := breaks + 1;
        err := None;
      }
      wordSum := wordSum + |text|;
      assert State() == Tally(t.inZone, t.wordSum + |text|, t.pictSum, if note then t.breaks else t.breaks + 1);
      BodyStepText(t, p, text, note);
    }

    /** `pNote`: `back()` removes the last `br` first, and the caption's
      section ends with a new one. */
    method PNote() returns (err: Option<CoderError>)
      modifies this
      ensures err.None? <==> old(breaks) > 0
      ensures err.Some? ==> err == Some(Python(IndexError))
      ensures inZone == old(inZone) && wordSum == old(wordSum) && pictSum == old(pictSum) && breaks == old(breaks)
      ensures Params() == old(Params())
    {
      err := Back();
      if err.None? {
        breaks := breaks + 1;
      }
    }

    /** One turn of the loop of `_code`. */
    method Visit(p: Paragraph) returns (err: Option<CoderError>)
      modifies this
      ensures Step(old(State()), p) == if err.None? then Done(State()) else Raised(err.value)
      ensures err.Some? ==> State() == old(State())
      ensures Params() == old(Params())
    {
      var s := Strip(p.text);
      err := None;
      if IsPrefix("#", s) {
      } else if ZoneName(s).Some? {
        err := AsZone(p.text);
      } else if inZone == "body" {
        err := AsBody(p);
      }
    }

    /** `_code` as far as zones and counters go: the loop over the
      paragraphs, then the check that no zone is left open. */
    method Code(paras: seq<Paragraph>) returns (err: Option<CoderError>)
      modifies this
      ensures (State(), err) == Finish(Scan(old(State()), paras))
      ensures Params() == old(Params())
    {
      var i := 0;
      while i < |paras|
        invariant 0 <= i <= |paras|
        invariant Scan(old(State()), paras[..i]) == (State(), None)
        invariant Params() == old(Params())
      {
        assert paras[..i + 1][..i] == paras[..i];
        var e := Visit(paras[i]);
        if e.Some? {
          err := e;
          LoopStops(Step, old(State()), paras, i + 1);
          return;
        }
        i := i + 1;
      }
      assert paras[..i] == paras;
      if inZone != "" {
        err := Some(MissingEnd(inZone));
      } else {
        err := None;
      }
    }
  }
}
