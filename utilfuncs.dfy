/** Helpers of `app/lib/utilfuncs.py`: the SQLite escaping `toESC` and
    `dictToESC`, the list chunkers `listSplit` and `iter_split`, the flattener
    `iter_flat` and the CJK test `isChinese`. */
module UtilFuncs {
  import opened Wrappers
  import opened PyValues
  import opened Collections

  // ---------------------------------------------------------------------
  // toESC

  /** The escape table, scanned in this order in both directions. */
  const Origins: seq<char> := ['/', '\'', '[', ']', '%', '&', '_', '(', ')']
  const Escapes: seq<string> := ["//", "''", "/[", "/]", "/%", "/&", "/_", "/(", "/)"]

  /** `s.replace(pat, rep)`: left to right, without overlaps. */
  function Replace(s: string, pat: string, rep: string): string
    requires |pat| > 0
    decreases |s|
  {
    if |s| < |pat| then s
    else if s[..|pat|] == pat then rep + Replace(s[|pat|..], pat, rep)
    else [s[0]] + Replace(s[1..], pat, rep)
  }

  /** Pass `k` of the loop in `toESC`. */
  function Pass(s: string, k: nat, reverse: bool): string
    requires k < 9
  {
    if reverse then Replace(s, Escapes[k], [Origins[k]]) else Replace(s, [Origins[k]], Escapes[k])
  }

  /** The word after the first `k` passes. */
  function Passes(word: string, k: nat, reverse: bool): string
    requires k <= 9
  {
    if k == 0 then word else Pass(Passes(word, k - 1, reverse), k - 1, reverse)
  }

  /** The value of `toESC(word, reverse)`. */
  function ToEscFn(word: string, reverse: bool): string {
    Passes(word, 9, reverse)
  }

  /** What forward escaping does to one character: `/` and `'` are doubled,
      and each of `[ ] % & _ ( )` gets a `/` in front. */
  function EscChar(c: char): string {
    if c == '/' then "//"
    else if c == '\'' then "''"
    else if c in "[]%&_()" then ['/', c]
    else [c]
  }

  function Escaped(w: string): (r: string)
    ensures |r| >= |w|
  {
    if w == [] then [] else EscChar(w[0]) + Escaped(w[1..])
  }

  /** Position of `c` in the escape table, 9 when it has none. */
  function OriginIndex(c: char): (i: nat)
    ensures i <= 9 && (i < 9 ==> Origins[i] == c) && (i == 9 ==> c !in Origins)
  {
    if c == '/' then 0 else if c == '\'' then 1 else if c == '[' then 2
    else if c == ']' then 3 else if c == '%' then 4 else if c == '&' then 5
    else if c == '_' then 6 else if c == '(' then 7 else if c == ')' then 8
    else 9
  }

  lemma EscapesShape(i: nat)
    requires i < 9
    ensures Escapes[i] == [if i == 1 then '\'' else '/', Origins[i]]
    ensures OriginIndex(Origins[i]) == i
  {
  }

  /** A character after the first `k` forward passes. */
  function Fwd(k: nat, c: char): string {
    var i := OriginIndex(c);
    if i < k && i < 9 then Escapes[i] else [c]
  }

  function FwdStr(k: nat, w: string): string {
    if w == [] then [] else Fwd(k, w[0]) + FwdStr(k, w[1..])
  }

  /** A character that was escaped, after the first `k` reverse passes. */
  function Enc(k: nat, c: char): string {
    var i := OriginIndex(c);
    if i < k || i == 9 then [c] else Escapes[i]
  }

  function EncStr(k: nat, w: string): string {
    if w == [] then [] else Enc(k, w[0]) + EncStr(k, w[1..])
  }

  lemma ReplaceKeep(x: string, r: string, pat: string, rep: string)
    requires |pat| == 1 && pat[0] !in x
    ensures Replace(x + r, pat, rep) == x + Replace(r, pat, rep)
    decreases |x|
  {
    if x != [] {
      TailAppend(x, r);
      ReplaceKeep(x[1..], r, pat, rep);
      ReplaceOne(x[0], x[1..] + r, pat, rep);
      AppendAssoc([x[0]], x[1..], Replace(r, pat, rep));
      assert [x[0]] + x[1..] == x;
    } else {
      assert x + r == r;
    }
  }

  /** A character other than a one-character pattern is kept. */
  lemma ReplaceOne(c: char, r: string, pat: string, rep: string)
    requires |pat| == 1 && c != pat[0]
    ensures Replace([c] + r, pat, rep) == [c] + Replace(r, pat, rep)
  {
    assert ([c] + r)[..1] == [c] != pat;
    assert ([c] + r)[1..] == r;
  }

  lemma ReplaceHit(pat: string, r: string, rep: string)
    requires |pat| > 0
    ensures Replace(pat + r, pat, rep) == rep + Replace(r, pat, rep)
  {
    assert (pat + r)[..|pat|] == pat && (pat + r)[|pat|..] == r;
  }

  lemma ReplaceMiss(c: char, r: string, pat: string, rep: string)
    requires |pat| == 2 && !(c == pat[0] && r != [] && r[0] == pat[1])
    ensures Replace([c] + r, pat, rep) == [c] + Replace(r, pat, rep)
  {
    assert ([c] + r)[1..] == r;
    if r != [] { assert ([c] + r)[..2] == [c, r[0]]; }
  }

  /** Forward pass `k` escapes exactly the table's `k`-th character: the
      escapes already written contain no later table character. */
  lemma {:induction false} FwdStep(k: nat, w: string)
    requires k < 9
    ensures Pass(FwdStr(k, w), k, false) == FwdStr(k + 1, w)
    decreases |w|
  {
    var pat, rep := [Origins[k]], Escapes[k];
    if w != [] {
      var c, rest := w[0], FwdStr(k, w[1..]);
      var i := OriginIndex(c);
      FwdStep(k, w[1..]);
      if i < k {
        EscapesShape(i);
        EscapesShape(k);
        ReplaceKeep(Escapes[i], rest, pat, rep);
      } else if i == k {
        ReplaceHit(pat, rest, rep);
      } else {
        ReplaceKeep([c], rest, pat, rep);
      }
    }
  }

  /** After `k` reverse passes no remaining piece starts with table character
      `k` when `k >= 2`. */
  lemma EncStrHead(k: nat, w: string)
    requires 2 <= k < 9 && w != []
    ensures EncStr(k, w) != [] && EncStr(k, w)[0] != Origins[k]
  {
    var i := OriginIndex(w[0]);
    if i < 9 { EscapesShape(i); }
    EscapesShape(k);
  }

  /** Reverse pass `k` undoes exactly the `k`-th escape. */
  lemma {:induction false} EncStep(k: nat, w: string)
    requires k < 9
    ensures Pass(EncStr(k, w), k, true) == EncStr(k + 1, w)
    decreases |w|
  {
    if w != [] {
      EncStep(k, w[1..]);
      if 2 <= k && w[1..] != [] { EncStrHead(k, w[1..]); }
      EncHead(k, w[0], EncStr(k, w[1..]));
    }
  }

  /** One escaped character followed by the rest of the word, through reverse
      pass `k`. */
  lemma EncHead(k: nat, c: char, rest: string)
    requires k < 9
    requires 2 <= k ==> rest == [] || rest[0] != Origins[k]
    ensures Replace(Enc(k, c) + rest, Escapes[k], [Origins[k]]) == Enc(k + 1, c) + Replace(rest, Escapes[k], [Origins[k]])
  {
    var i := OriginIndex(c);
    EscapesShape(k);
    if i < k || i == 9 {
      ReplaceMiss(c, rest, Escapes[k], [Origins[k]]);
    } else if i == k {
      ReplaceHit(Escapes[k], rest, [Origins[k]]);
    } else {
      EncHeadTwo(k, i, rest);
    }
  }

  lemma EncHeadTwo(k: nat, i: nat, rest: string)
    requires k < i < 9
    ensures Replace(Escapes[i] + rest, Escapes[k], [Origins[k]]) == Escapes[i] + Replace(rest, Escapes[k], [Origins[k]])
  {
    var pat, rep := Escapes[k], [Origins[k]];
    EscapesShape(k);
    EscapesShape(i);
    var e := Escapes[i];
    assert e + rest == [e[0]] + ([e[1]] + rest);
    ReplaceMiss(e[1], rest, pat, rep);
    ReplaceMiss(e[0], [e[1]] + rest, pat, rep);
    assert [e[0]] + ([e[1]] + Replace(rest, pat, rep)) == e + Replace(rest, pat, rep);
  }

  lemma {:induction false} FwdPasses(w: string, k: nat)
    requires k <= 9
    ensures Passes(w, k, false) == FwdStr(k, w)
    decreases k
  {
    if k == 0 {
      FwdStrIdentity(w);
    } else {
      FwdPasses(w, k - 1);
      FwdStep(k - 1, w);
    }
  }

  lemma {:induction false} EncPasses(w: string, k: nat)
    requires k <= 9
    ensures Passes(Escaped(w), k, true) == EncStr(k, w)
    decreases k
  {
    if k == 0 {
      EncStrEscaped(w);
    } else {
      EncPasses(w, k - 1);
      EncStep(k - 1, w);
    }
  }

  lemma FwdStrIdentity(w: string)
    ensures FwdStr(0, w) == w
  {
  }

  lemma EncStrIdentity(w: string)
    ensures EncStr(9, w) == w
  {
  }

  lemma EncStrEscaped(w: string)
    ensures EncStr(0, w) == Escaped(w)
  {
    if w != [] {
      var i := OriginIndex(w[0]);
      if i < 9 { EscapesShape(i); }
      EncStrEscaped(w[1..]);
    }
  }

  lemma FwdStrEscaped(w: string)
    ensures FwdStr(9, w) == Escaped(w)
  {
    if w != [] {
      var i := OriginIndex(w[0]);
      if i < 9 { EscapesShape(i); }
      FwdStrEscaped(w[1..]);
    }
  }

  /** Forward `toESC` is the per-character escaping `Escaped`. */
  lemma ToEscForward(w: string)
    ensures ToEscFn(w, false) == Escaped(w)
  {
    FwdPasses(w, 9);
    FwdStrEscaped(w);
  }

  /** Unescaping an escaped word gives the word back. */
  lemma ToEscRoundTrip(w: string)
    ensures ToEscFn(ToEscFn(w, false), true) == w
  {
    ToEscForward(w);
    EncPasses(w, 9);
    EncStrIdentity(w);
  }

  /** `toESC(word, reverse)`: the nine replacements in table order. */
  method ToEsc(word: string, reverse: bool) returns (r: string)
    ensures !reverse ==> r == Escaped(word)
    ensures reverse ==> r == ToEscFn(word, true)
    ensures reverse ==> forall w :: word == Escaped(w) ==> r == w
  {
    r := word;
    for i := 0 to 9
      invariant r == Passes(word, i, reverse)
    {
      r := Pass(r, i, reverse);
    }
    if !reverse {
      ToEscForward(word);
    } else {
      forall w | word == Escaped(w) ensures r == w {
        ToEscForward(w);
        ToEscRoundTrip(w);
      }
    }
  }

  // ---------------------------------------------------------------------
  // dictToESC

  /** `dictToESC(infoDict, keys, reverse)` on a dict given as its items in
      order: the listed keys' values are (un)escaped, everything else is
      copied. A listed value that is not a string has no `replace`. */
  function DictToEsc(infoDict: seq<(string, PyVal)>, keys: seq<string>, reverse: bool): (r: Result<seq<(string, PyVal)>>)
    ensures r.Ok? <==> forall i :: 0 <= i < |infoDict| && infoDict[i].0 in keys ==> infoDict[i].1.PStr?
    ensures r.Ok? ==> |r.value| == |infoDict|
    ensures r.Ok? ==> forall i :: 0 <= i < |infoDict| ==> r.value[i].0 == infoDict[i].0
    ensures r.Ok? ==> forall i :: 0 <= i < |infoDict| && infoDict[i].0 !in keys ==> r.value[i].1 == infoDict[i].1
    ensures r.Ok? ==> forall i :: 0 <= i < |infoDict| && infoDict[i].0 in keys ==>
      r.value[i].1 == PStr(ToEscFn(infoDict[i].1.s, reverse))
    ensures r.Err? ==> r.error == AttributeError || r.error == TypeError
  {
    if infoDict == [] then Ok([])
    else
      var (k, v) := infoDict[0];
      if k in keys && !v.PStr? then Err(if v.PBytes? then TypeError else AttributeError)
      else
        assert forall i :: 1 <= i < |infoDict| ==> infoDict[i] == infoDict[1..][i - 1];
        var rest :- DictToEsc(infoDict[1..], keys, reverse);
        Ok([(k, if k in keys then PStr(ToEscFn(v.s, reverse)) else v)] + rest)
  }

  // ---------------------------------------------------------------------
  // listSplit and iter_split

  /** `[a[i:i+n] for i in range(0, len(a), n)]` for a positive `n`. */
  function Chunks<T>(a: seq<T>, n: nat): (r: seq<seq<T>>)
    requires n > 0
    decreases |a|
  {
    if a == [] then []
    else if |a| <= n then [a]
    else [a[..n]] + Chunks(a[n..], n)
  }

  /** The chunks put back together are the input; every chunk but the last has
      exactly `n` elements and the last has between 1 and `n`. */
  lemma {:induction false} ChunksShape<T>(a: seq<T>, n: nat)
    requires n > 0
    ensures Flatten(Chunks(a, n)) == a
    ensures forall i :: 0 <= i < |Chunks(a, n)| - 1 ==> |Chunks(a, n)[i]| == n
    ensures forall i :: 0 <= i < |Chunks(a, n)| ==> 0 < |Chunks(a, n)[i]| <= n
    decreases |a|
  {
    if a == [] {
    } else if |a| <= n {
      assert Flatten([a]) == a + Flatten([a][1..]);
    } else {
      ChunksShape(a[n..], n);
      var c := Chunks(a, n);
      assert c == [a[..n]] + Chunks(a[n..], n);
      assert c[1..] == Chunks(a[n..], n);
      assert Flatten(c) == a[..n] + Flatten(c[1..]);
      assert a == a[..n] + a[n..];
    }
  }

  /** Cutting after a whole number `q` of chunks: the next chunk is appended. */
  lemma {:induction false} ChunksSnoc<T>(a: seq<T>, b: seq<T>, n: nat, q: nat)
    requires n > 0 && |a| == q * n && 0 < |b| <= n
    ensures Chunks(a + b, n) == Chunks(a, n) + [b]
    decreases q
  {
    if a == [] {
      assert a + b == b;
    } else {
      assert q > 0 && |a| >= n && |a| - n == (q - 1) * n;
      assert (a + b)[..n] == a[..n];
      assert (a + b)[n..] == a[n..] + b;
      ChunksSnoc(a[n..], b, n, q - 1);
      if |a| == n {
        assert a[n..] == [];
        assert Chunks(a, n) == [a];
      }
    }
  }

  /** `listSplit(aList, n)`: a zero step is a `ValueError` from `range`, a
      negative one gives an empty list. */
  function ListSplit<T>(a: seq<T>, n: int): (r: Result<seq<seq<T>>>)
    ensures n == 0 <==> r.Err?
    ensures r.Err? ==> r.error == ValueError
    ensures n < 0 ==> r == Ok([])
    ensures n > 0 ==> r.Ok? && Flatten(r.value) == a
    ensures n > 0 ==> forall i :: 0 <= i < |r.value| ==> 0 < |r.value[i]| <= n
    ensures n > 0 ==> forall i :: 0 <= i < |r.value| - 1 ==> |r.value[i]| == n
  {
    if n == 0 then Err(ValueError)
    else if n < 0 then Ok([])
    else
      ChunksShape(a, n);
      Ok(Chunks(a, n))
  }

  /** What `iter_split` may be handed. */
  datatype Splittable<T> = PyList(items: seq<T>) | Generator(elements: seq<T>) | OtherObject

  /** The generator of `iter_split`: elements go into a buffer, which is
      emitted once it holds `n` elements, and the leftover is emitted at the end
      when it is not empty. With `n <= 1` every element is its own chunk. */
  method GenSplit<T>(origin: seq<T>, n: int) returns (chunks: seq<seq<T>>)
    ensures chunks == Chunks(origin, if n < 1 then 1 else n)
    ensures forall i :: 0 <= i < |chunks| ==> chunks[i] != []
    ensures Flatten(chunks) == origin
  {
    var m: nat := if n < 1 then 1 else n;
    chunks := [];
    var fragment: seq<T> := [];
    var i := 0;
    ghost var q: nat := 0;
    while i < |origin|
      invariant i <= |origin| && SplitState(origin, m, i, q, fragment, chunks)
    {
      SplitStep(origin, n, m, i, q, fragment, chunks);
      fragment := fragment + [origin[i]];
      i := i + 1;
      if |fragment| >= n {
        chunks := chunks + [fragment];
        fragment := [];
        q := q + 1;
      }
    }
    SplitEnd(origin, m, q, fragment, chunks);
    if fragment != [] {
      chunks := chunks + [fragment];
    }
    ChunksShape(origin, m);
  }

  /** The generator's state after `i` elements: the chunks emitted so far
      are those of the first `q` full chunks' worth, and the buffer holds the
      elements after them. */
  ghost predicate SplitState<T>(origin: seq<T>, m: nat, i: nat, q: nat, fragment: seq<T>, chunks: seq<seq<T>>) {
    m > 0 && i <= |origin| && |fragment| < m && |fragment| <= i && i - |fragment| == q * m &&
    fragment == origin[i - |fragment|..i] && chunks == Chunks(origin[..i - |fragment|], m)
  }

  /** One element more: the buffer grows, and is emitted once it is full. */
  lemma SplitStep<T>(origin: seq<T>, n: int, m: nat, i: nat, q: nat, fragment: seq<T>, chunks: seq<seq<T>>)
    requires m == (if n < 1 then 1 else n) && i < |origin|
    requires SplitState(origin, m, i, q, fragment, chunks)
    ensures var f := fragment + [origin[i]];
      if |f| >= n then SplitState(origin, m, i + 1, q + 1, [], chunks + [f])
      else SplitState(origin, m, i + 1, q, f, chunks)
  {
    var j := i - |fragment|;
    var f := fragment + [origin[i]];
    assert f == origin[j..i + 1];
    if |f| >= n {
      ChunksPrefixSnoc(origin, j, i + 1, m, q);
    }
  }

  /** At the end, emitting a non-empty buffer completes the chunks. */
  lemma SplitEnd<T>(origin: seq<T>, m: nat, q: nat, fragment: seq<T>, chunks: seq<seq<T>>)
    requires SplitState(origin, m, |origin|, q, fragment, chunks)
    ensures (if fragment != [] then chunks + [fragment] else chunks) == Chunks(origin, m)
  {
    if fragment != [] {
      ChunksPrefixSnoc(origin, |origin| - |fragment|, |origin|, m, q);
    }
    assert origin[..|origin|] == origin;
  }

  /** Emitting the buffer `origin[j..i]` after the chunks of `origin[..j]`,
      which fill whole chunks, gives the chunks of `origin[..i]`; the
      emitted count then still fills whole chunks when the buffer is full. */
  lemma ChunksPrefixSnoc<T>(origin: seq<T>, j: nat, i: nat, m: nat, q: nat)
    requires m > 0 && j == q * m && j < i <= j + m && i <= |origin|
    ensures Chunks(origin[..i], m) == Chunks(origin[..j], m) + [origin[j..i]]
    ensures i == j + m ==> i == (q + 1) * m
  {
    assert origin[..i] == origin[..j] + origin[j..i];
    ChunksSnoc(origin[..j], origin[j..i], m, q);
  }

  /** `iter_split(origin, n)`: lists are sliced, generators go through the
      buffering generator, anything else is a `TypeError`. */
  method IterSplit<T>(origin: Splittable<T>, n: int) returns (r: Result<seq<seq<T>>>)
    ensures origin.OtherObject? ==> r == Err(TypeError)
    ensures origin.PyList? ==> r == ListSplit(origin.items, n)
    ensures origin.Generator? ==> r.Ok? && Flatten(r.value) == origin.elements
    ensures origin.Generator? ==> forall i :: 0 <= i < |r.value| ==> r.value[i] != []
    ensures origin.Generator? && n > 0 ==> r == ListSplit(origin.elements, n)
  {
    match origin
    case PyList(items) =>
      r := ListSplit(items, n);
    case Generator(elements) =>
      var chunks := GenSplit(elements, n);
      r := Ok(chunks);
    case OtherObject =>
      r := Err(TypeError);
  }

  // ---------------------------------------------------------------------
  // iter_flat

  /** An element of the iterable handed to `iter_flat`: a list or tuple
      (flattened recursively) or any other value (kept as is). */
  datatype Nested<T> = Leaf(value: T) | ListOf(items: seq<Nested<T>>) | TupleOf(elements: seq<Nested<T>>)

  /** The leaves, left to right. */
  function Leaves<T>(origin: seq<Nested<T>>): seq<T>
    decreases origin, 1
  {
    if origin == [] then [] else LeavesOf(origin[0]) + Leaves(origin[1..])
  }

  function LeavesOf<T>(item: Nested<T>): seq<T>
    decreases item, 0
  {
    match item
    case Leaf(v) => [v]
    case ListOf(items) => Leaves(items)
    case TupleOf(elements) => Leaves(elements)
  }

  lemma {:induction false} LeavesAppend<T>(a: seq<Nested<T>>, b: seq<Nested<T>>)
    ensures Leaves(a + b) == Leaves(a) + Leaves(b)
    decreases |a|
  {
    if a == [] {
      assert a + b == b;
    } else {
      assert (a + b)[0] == a[0] && (a + b)[1..] == a[1..] + b;
      LeavesAppend(a[1..], b);
    }
  }

  /** A list holding no lists or tuples is flattened to itself. */
  lemma {:induction false} LeavesOfFlat<T>(xs: seq<T>)
    ensures Leaves(seq(|xs|, i requires 0 <= i < |xs| => Leaf(xs[i]))) == xs
    decreases |xs|
  {
    var s := seq(|xs|, i requires 0 <= i < |xs| => Leaf(xs[i]));
    if xs != [] {
      LeavesOfFlat(xs[1..]);
      assert s[1..] == seq(|xs[1..]|, i requires 0 <= i < |xs[1..]| => Leaf(xs[1..][i]));
      assert xs == [xs[0]] + xs[1..];
    }
  }

  /** `iter_flat(origin)`: lists and tuples are flattened recursively into one
      accumulator, everything else is appended. */
  method IterFlat<T>(origin: seq<Nested<T>>) returns (results: seq<T>)
    ensures results == Leaves(origin)
    decreases origin, 1
  {
    results := [];
    for i := 0 to |origin|
      invariant results == Leaves(origin[..i])
    {
      var item := origin[i];
      LeavesAppend(origin[..i], [item]);
      assert origin[..i + 1] == origin[..i] + [item];
      assert Leaves([item]) == LeavesOf(item) + Leaves([]);
      match item
      case Leaf(v) =>
        results := results + [v];
      case ListOf(items) =>
        var inner := IterFlat(items);
        results := results + inner;
      case TupleOf(elements) =>
        var inner := IterFlat(elements);
        results := results + inner;
    }
    assert origin[..|origin|] == origin;
  }

  // ---------------------------------------------------------------------
  // isChinese

  predicate IsCjk(c: char) {
    '\U{4e00}' <= c <= '\U{9fa5}'
  }

  /** `isChinese(word)`: scans the word and stops at the first character
      outside U+4E00..U+9FA5. */
  function IsChinese(word: string): (b: bool)
    ensures b <==> forall k :: 0 <= k < |word| ==> IsCjk(word[k])
  {
    if word == [] then true
    else if !IsCjk(word[0]) then false
    else
      assert forall k :: 1 <= k < |word| ==> word[k] == word[1..][k - 1];
      IsChinese(word[1..])
  }

  lemma IsChineseEmpty()
    ensures IsChinese("")
    ensures !IsChinese("a") && IsChinese("北大")
  {
  }
}
