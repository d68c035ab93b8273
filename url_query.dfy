/** The parts of `urllib.parse` the crawlers rely on: the query component
    of a URL (`urlparse(url).query`) and `parse_qs` on it, as Python 3.6
    does it, with both `&` and `;` separating the pairs. */
module UrlQuery {
  import opened Wrappers
  import opened Text
  import opened Collections

  /** The position of the first `c` in `s`, `|s|` when there is none. */
  function IndexOf(s: string, c: char): (i: nat)
    ensures i <= |s| && c !in s[..i]
    ensures i < |s| ==> s[i] == c
    decreases |s|
  {
    if s == [] then 0
    else if s[0] == c then 0
    else
      var j := IndexOf(s[1..], c);
      assert s[..1 + j] == [s[0]] + s[1..][..j];
      1 + j
  }

  /** Where `c` does not occur before a given `c`, that is the first one. */
  lemma IndexOfAt(a: string, c: char, b: string)
    requires c !in a
    ensures IndexOf(a + [c] + b, c) == |a|
  {
    var s := a + [c] + b;
    assert s[|a|] == c;
    assert forall j :: 0 <= j < |a| ==> s[j] == a[j];
  }

  /** `urlsplit(url).query`: the fragment after the first `#` is cut off,
      then the query is what follows the first `?`. */
  function QueryOf(url: string): (q: string)
    ensures '#' !in q
  {
    var u := url[..IndexOf(url, '#')];
    var i := IndexOf(u, '?');
    if i == |u| then [] else
      assert forall c :: c in u[i + 1..] ==> c in u;
      u[i + 1..]
  }

  /** The query of `base?query` is `query` when the base holds no `?` and
      neither part a `#`; a URL without `?` has an empty query. */
  lemma QueryOfSplit(base: string, query: string)
    requires '?' !in base && '#' !in base && '#' !in query
    ensures QueryOf(base + "?" + query) == query
    ensures QueryOf(base) == []
  {
    var url := base + "?" + query;
    assert '#' !in url by {
      assert forall c :: c in url ==> c in base || c == '?' || c in query;
    }
    var u := url[..IndexOf(url, '#')];
    assert u == url;
    IndexOfAt(base, '?', query);
    assert url[|base| + 1..] == query;
    assert base[..IndexOf(base, '#')] == base;
  }

  /** `&` and `;` both end a pair. */
  function Separator(c: char): char {
    if c == ';' then '&' else c
  }

  /** `[s2 for s1 in qs.split('&') for s2 in s1.split(';')]`: the pieces
      between separators of either kind. */
  function Segments(q: string): (r: seq<string>)
    ensures |r| >= 1
  {
    SplitOn(MapSeq(Separator, q), '&')
  }

  /** `+` stands for a space. */
  function PlusChar(c: char): char {
    if c == '+' then ' ' else c
  }

  /** One `name=value` piece: a piece without `=`, or with an empty value,
      is dropped (blank values are not kept), else the text on either side
      of the first `=`, with `+` read as a space. */
  function Pair(seg: string): (r: Option<(string, string)>)
    ensures r.Some? ==> r.value.1 != []
  {
    var i := IndexOf(seg, '=');
    if i == |seg| || seg[i + 1..] == [] then None
    else Some((MapSeq(PlusChar, seg[..i]), MapSeq(PlusChar, seg[i + 1..])))
  }

  /** `parse_qsl(qs)`: the pairs of the pieces that have one, in order. */
  function Pairs(segs: seq<string>): (r: seq<(string, string)>)
    ensures |r| <= |segs|
    decreases |segs|
  {
    if segs == [] then []
    else
      match Pair(segs[0])
      case None => Pairs(segs[1..])
      case Some(p) => [p] + Pairs(segs[1..])
  }

  function ParseQsl(q: string): seq<(string, string)> {
    Pairs(Segments(q))
  }

  /** The items of the dict `parse_qs` builds, each key with the first of its
      values (the only one the crawlers read), in the order the keys first
      appear. */
  function FirstValues(pairs: seq<(string, string)>): (r: seq<(string, string)>)
    decreases |pairs|
  {
    if pairs == [] then []
    else
      var init := FirstValues(pairs[..|pairs| - 1]);
      var p := pairs[|pairs| - 1];
      if p.0 in Firsts(init) then init else init + [p]
  }

  function ParseQs(q: string): seq<(string, string)> {
    FirstValues(ParseQsl(q))
  }

  /** Every key appears once among the items, the keys are those of the
      pairs, and each key's item holds the value of its first pair. */
  lemma {:induction false} FirstValuesSpec(pairs: seq<(string, string)>)
    ensures Distinct(Firsts(FirstValues(pairs)))
    ensures forall k :: k in Firsts(FirstValues(pairs)) <==> k in Firsts(pairs)
    ensures forall k :: Lookup(FirstValues(pairs), k) == Lookup(pairs, k)
    decreases |pairs|
  {
    if pairs != [] {
      var front := pairs[..|pairs| - 1];
      var p := pairs[|pairs| - 1];
      FirstValuesSpec(front);
      var init := FirstValues(front);
      assert pairs == front + [p];
      FirstsSnoc(front, p);
      forall k ensures Lookup(pairs, k) == if k in Firsts(front) then Lookup(front, k) else if k == p.0 then Some(p.1) else None {
        LookupSnoc(front, p, k);
      }
      if p.0 !in Firsts(init) {
        FirstsSnoc(init, p);
        DistinctSnoc(Firsts(init), p.0);
        forall k ensures Lookup(init + [p], k) == if k in Firsts(init) then Lookup(init, k) else if k == p.0 then Some(p.1) else None {
          LookupSnoc(init, p, k);
        }
      }
    }
  }

  lemma FirstsSnoc<K, V>(s: seq<(K, V)>, p: (K, V))
    ensures Firsts(s + [p]) == Firsts(s) + [p.0]
  {
  }

  lemma DistinctSnoc<T>(s: seq<T>, x: T)
    requires Distinct(s) && x !in s
    ensures Distinct(s + [x])
  {
  }

  lemma {:induction false} LookupSnoc<K, V>(s: seq<(K, V)>, p: (K, V), k: K)
    ensures Lookup(s + [p], k) == if k in Firsts(s) then Lookup(s, k) else if k == p.0 then Some(p.1) else None
    decreases |s|
  {
    if s != [] {
      assert (s + [p])[1..] == s[1..] + [p];
      assert Firsts(s) == [s[0].0] + Firsts(s[1..]);
      LookupSnoc(s[1..], p, k);
    }
  }

  /** A single `name=value` query, without separators or `+`, parses to
      that one pair. */
  lemma ParseQsOne(name: string, value: string)
    requires value != [] && '=' !in name
    requires forall c :: c in name + value ==> c != '&' && c != ';' && c != '+'
    ensures ParseQs(name + "=" + value) == [(name, value)]
  {
    var q := name + "=" + value;
    assert forall i :: 0 <= i < |q| ==> q[i] in name + value || q[i] == '=';
    MapFixed(Separator, q);
    assert '&' !in q;
    SplitOnFree(q, '&');
    IndexOfAt(name, '=', value);
    assert q[..|name|] == name && q[|name| + 1..] == value;
    assert forall i :: 0 <= i < |name| ==> name[i] in name + value;
    assert forall i :: 0 <= i < |value| ==> value[i] in name + value;
    MapFixed(PlusChar, name);
    MapFixed(PlusChar, value);
    assert Pairs([q]) == [(name, value)];
    assert FirstValues([(name, value)]) == [(name, value)];
  }

  lemma MapFixed(f: char -> char, s: string)
    requires forall i :: 0 <= i < |s| ==> f(s[i]) == s[i]
    ensures MapSeq(f, s) == s
  {
  }
}
