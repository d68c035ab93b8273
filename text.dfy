/** Python string operations used throughout the server: `str.strip`,
    `str.split()` without a separator, `sep.join`, `str.isspace`, ASCII
    lower-casing, decimal rendering of integers and zero padding. */
module Text {

  /** The characters Python's `str.isspace`, `str.strip()` and `str.split()`
      treat as whitespace. */
  predicate IsSpace(c: char) {
    c == ' ' || ('\t' <= c <= '\r') || ('\U{1c}' <= c <= '\U{1f}') || c == '\U{85}' || c == '\U{a0}'
    || c == '\U{1680}' || ('\U{2000}' <= c <= '\U{200a}') || c == '\U{2028}' || c == '\U{2029}'
    || c == '\U{202f}' || c == '\U{205f}' || c == '\U{3000}'
  }

  predicate NoSpace(s: string) {
    forall k :: 0 <= k < |s| ==> !IsSpace(s[k])
  }

  predicate AllSpace(s: string) {
    forall k :: 0 <= k < |s| ==> IsSpace(s[k])
  }

  /** A whitespace character before whitespace is whitespace. */
  lemma AllSpaceCons(s: string, n: nat)
    requires 0 < n <= |s| && IsSpace(s[0]) && AllSpace(s[1..][..n - 1])
    ensures AllSpace(s[..n])
  {
    assert forall k :: 1 <= k < n ==> s[k] == s[1..][..n - 1][k - 1];
  }

  /** `s.isspace()`: non-empty and whitespace only. */
  predicate IsSpaceStr(s: string) {
    |s| > 0 && AllSpace(s)
  }

  /** ASCII decimal digit. */
  predicate IsDigit(c: char) {
    '0' <= c <= '9'
  }

  /** `s.isdigit()` restricted to ASCII digits: non-empty and digits only. */
  predicate IsDigitStr(s: string) {
    |s| > 0 && forall k :: 0 <= k < |s| ==> IsDigit(s[k])
  }

  /** `s.lstrip()`. */
  function LStrip(s: string): (r: string)
    ensures |r| <= |s| && r == s[|s| - |r|..]
    ensures AllSpace(s[..|s| - |r|])
    ensures r == [] || !IsSpace(r[0])
    decreases |s|
  {
    if s != [] && IsSpace(s[0]) then
      var r := LStrip(s[1..]);
      AllSpaceCons(s, |s| - |r|);
      r
    else s
  }

  /** `s.rstrip()`. */
  function RStrip(s: string): (r: string)
    ensures |r| <= |s| && r == s[..|r|]
    ensures AllSpace(s[|r|..])
    ensures r == [] || !IsSpace(r[|r| - 1])
    decreases |s|
  {
    if s != [] && IsSpace(s[|s| - 1]) then
      var r := RStrip(s[..|s| - 1]);
      assert s[|r|..] == s[..|s| - 1][|r|..] + [s[|s| - 1]];
      r
    else s
  }

  /** `s.strip()`: neither end of the result is whitespace. */
  function Strip(s: string): (r: string)
    ensures |r| <= |s|
    ensures r == [] || (!IsSpace(r[0]) && !IsSpace(r[|r| - 1]))
  {
    RStrip(LStrip(s))
  }

  /** What `Strip` removes: `s` is some whitespace, then the result, then
      some whitespace. */
  lemma StripSplits(s: string) returns (i: nat)
    ensures i + |Strip(s)| <= |s| && s[i..i + |Strip(s)|] == Strip(s)
    ensures AllSpace(s[..i]) && AllSpace(s[i + |Strip(s)|..])
  {
    var l := LStrip(s);
    var r := RStrip(l);
    i := |s| - |l|;
    assert Strip(s) == r;
    SplitParts(s, l, r, i);
  }

  lemma SplitParts(s: string, l: string, r: string, i: nat)
    requires i <= |s| && l == s[i..] && |r| <= |l| && r == l[..|r|] && AllSpace(l[|r|..])
    ensures i + |r| <= |s| && s[i..i + |r|] == r && AllSpace(s[i + |r|..])
  {
    SliceOfSuffix(s, i, |r|);
  }

  lemma SliceOfSuffix(s: string, i: nat, j: nat)
    requires i + j <= |s|
    ensures s[i..][..j] == s[i..i + j] && s[i..][j..] == s[i + j..]
  {
  }

  /** A string without whitespace is its own `strip()`. */
  lemma StripNoSpace(s: string)
    requires NoSpace(s)
    ensures Strip(s) == s
  {
    assert LStrip(s) == s;
    assert RStrip(s) == s;
  }

  /** A string that does not start with whitespace keeps its first
      character under `strip()`. */
  lemma StripHead(s: string)
    ensures s != [] && !IsSpace(s[0]) ==> Strip(s) != [] && Strip(s)[0] == s[0]
  {
    if s != [] && !IsSpace(s[0]) {
      assert LStrip(s) == s;
    }
  }

  /** Leading whitespace removed (the skip between words in `split()`). */
  function DropSpace(s: string): (r: string)
    ensures |r| <= |s| && r == s[|s| - |r|..]
    ensures AllSpace(s[..|s| - |r|])
    ensures r == [] || !IsSpace(r[0])
  {
    LStrip(s)
  }

  /** The longest prefix free of whitespace. */
  function TakeWord(s: string): (w: string)
    ensures |w| <= |s| && w == s[..|w|] && NoSpace(w)
    ensures |w| < |s| ==> IsSpace(s[|w|])
    decreases |s|
  {
    if s == [] || IsSpace(s[0]) then [] else [s[0]] + TakeWord(s[1..])
  }

  /** `s.split()`: the maximal runs of non-whitespace characters, in order. */
  function SplitWs(s: string): (ws: seq<string>)
    ensures forall k :: 0 <= k < |ws| ==> |ws[k]| > 0 && NoSpace(ws[k])
    decreases |s|
  {
    var t := DropSpace(s);
    if t == [] then []
    else
      var w := TakeWord(t);
      [w] + SplitWs(t[|w|..])
  }

  /** `sep.join(parts)`. */
  function Join(sep: string, parts: seq<string>): (r: string)
    ensures parts == [] ==> r == []
    ensures |parts| == 1 ==> r == parts[0]
  {
    if parts == [] then []
    else if |parts| == 1 then parts[0]
    else parts[0] + sep + Join(sep, parts[1..])
  }

  lemma DropSpaceOfWord(w: string, rest: string)
    requires |w| > 0 && NoSpace(w)
    ensures DropSpace(w + rest) == w + rest
  {
  }

  lemma TakeWordOfWord(w: string, rest: string)
    requires NoSpace(w)
    requires rest == [] || IsSpace(rest[0])
    ensures TakeWord(w + rest) == w
    decreases |w|
  {
    if w != [] {
      assert (w + rest)[1..] == w[1..] + rest;
      TakeWordOfWord(w[1..], rest);
    }
  }

  lemma SplitWsWord(w: string, rest: string)
    requires |w| > 0 && NoSpace(w)
    requires rest == [] || IsSpace(rest[0])
    ensures SplitWs(w + rest) == [w] + SplitWs(rest)
  {
    DropSpaceOfWord(w, rest);
    TakeWordOfWord(w, rest);
    assert (w + rest)[|w|..] == rest;
  }

  lemma SplitWsSpace(c: char, rest: string)
    requires IsSpace(c)
    ensures SplitWs([c] + rest) == SplitWs(rest)
  {
    assert ([c] + rest)[1..] == rest;
    assert DropSpace([c] + rest) == DropSpace(rest);
  }

  /** Splitting words joined by a single whitespace character gives the words
      back. The keyword queries below split user input and join it again. */
  lemma {:induction false} SplitJoinRoundTrip(parts: seq<string>, sp: char)
    requires IsSpace(sp)
    requires forall k :: 0 <= k < |parts| ==> |parts[k]| > 0 && NoSpace(parts[k])
    ensures SplitWs(Join([sp], parts)) == parts
    decreases |parts|
  {
    if |parts| == 1 {
      SplitWsWord(parts[0], []);
      assert parts[0] + [] == parts[0];
      assert SplitWs([]) == [];
    } else if |parts| > 1 {
      var tail := Join([sp], parts[1..]);
      calc {
        SplitWs(Join([sp], parts));
        { assert Join([sp], parts) == parts[0] + ([sp] + tail); }
        SplitWs(parts[0] + ([sp] + tail));
        { SplitWsWord(parts[0], [sp] + tail); }
        [parts[0]] + SplitWs([sp] + tail);
        { SplitWsSpace(sp, tail); }
        [parts[0]] + SplitWs(tail);
        { SplitJoinRoundTrip(parts[1..], sp); }
        [parts[0]] + parts[1..];
        parts;
      }
    }
  }

  /** ASCII lower-casing, the part of `str.lower()` the modelled code relies on. */
  function LowerChar(c: char): char {
    if 'A' <= c <= 'Z' then (c as int + 32) as char else c
  }

  function Lower(s: string): (r: string)
    ensures |r| == |s| && forall k :: 0 <= k < |s| ==> r[k] == LowerChar(s[k])
  {
    seq(|s|, k requires 0 <= k < |s| => LowerChar(s[k]))
  }

  function Upper(s: string): (r: string)
    ensures |r| == |s|
    ensures forall k :: 0 <= k < |s| ==> r[k] == if 'a' <= s[k] <= 'z' then (s[k] as int - 32) as char else s[k]
  {
    seq(|s|, k requires 0 <= k < |s| => if 'a' <= s[k] <= 'z' then (s[k] as int - 32) as char else s[k])
  }

  function DigitChar(d: nat): char
    requires d < 10
  {
    ('0' as int + d) as char
  }

  /** Decimal digits of a natural number, no leading zeros (`str(n)`). */
  function NatToStr(n: nat): (r: string)
    ensures |r| > 0 && forall k :: 0 <= k < |r| ==> IsDigit(r[k])
    decreases n
  {
    if n < 10 then [DigitChar(n)] else NatToStr(n / 10) + [DigitChar(n % 10)]
  }

  /** `str(i)` for an int. */
  function IntToStr(i: int): (r: string)
    ensures |r| > 0
  {
    if i < 0 then "-" + NatToStr(-i) else NatToStr(i)
  }

  /** `format(s, "{fill}>{width}")`: right aligned, padded on the left. */
  function PadLeft(s: string, width: nat, fill: char): (r: string)
    ensures |r| == if |s| < width then width else |s|
    ensures r[|r| - |s|..] == s
    ensures forall k :: 0 <= k < |r| - |s| ==> r[k] == fill
  {
    if |s| < width then seq(width - |s|, _ => fill) + s else s
  }

  /** Python's `s[i:j]` for non-negative bounds: clamped, never failing. */
  function Slice<T>(s: seq<T>, i: nat, j: nat): (r: seq<T>)
    ensures |r| <= |s|
    ensures i <= j <= |s| ==> r == s[i..j]
    ensures j <= i || |s| <= i ==> r == []
  {
    var hi := if j < |s| then j else |s|;
    if i < hi then s[i..hi] else []
  }

  /** Python's `s[i:]` for non-negative `i`. */
  function From<T>(s: seq<T>, i: nat): (r: seq<T>)
    ensures i <= |s| ==> r == s[i..]
    ensures |s| <= i ==> r == []
  {
    if i <= |s| then s[i..] else []
  }

  predicate IsPrefix(p: string, s: string) {
    |p| <= |s| && s[..|p|] == p
  }

  /** The `n` consecutive ASCII characters from `first` on. */
  function CharRange(first: char, n: nat): (r: string)
    requires first as int + n <= 0x80
    ensures |r| == n && forall k :: 0 <= k < n ==> r[k] as int == first as int + k
  {
    seq(n, k requires 0 <= k < n => (first as int + k) as char)
  }

  /** `string.ascii_letters`. */
  const LetterChars: string := CharRange('a', 26) + CharRange('A', 26)

  /** `string.digits`. */
  const DigitChars: string := CharRange('0', 10)

  /** `s.split(sep)` for a one-character separator: the pieces between
      separators, empty ones included, so there is always at least one. */
  function SplitOn(s: string, sep: char): (r: seq<string>)
    ensures |r| >= 1
    ensures forall i :: 0 <= i < |r| ==> sep !in r[i]
    ensures forall i, x :: 0 <= i < |r| && x in r[i] ==> x in s
    decreases |s|
  {
    if s == [] then [[]]
    else
      var rest := SplitOn(s[1..], sep);
      assert forall x :: x in s[1..] ==> x in s;
      if s[0] == sep then [[]] + rest
      else [[s[0]] + rest[0]] + rest[1..]
  }

  /** Joining the pieces with the separator gives the string back. */
  lemma {:induction false} JoinSplitOn(s: string, sep: char)
    ensures Join([sep], SplitOn(s, sep)) == s
    decreases |s|
  {
    if s != [] {
      var rest := SplitOn(s[1..], sep);
      JoinSplitOn(s[1..], sep);
      if s[0] == sep {
        assert SplitOn(s, sep)[1..] == rest;
        assert s == [sep] + s[1..];
      } else if |rest| == 1 {
        assert s == [s[0]] + s[1..];
      } else {
        var r := SplitOn(s, sep);
        assert r[1..] == rest[1..];
        assert Join([sep], rest) == rest[0] + [sep] + Join([sep], rest[1..]);
        assert s == [s[0]] + s[1..];
      }
    }
  }

  /** A piece free of the separator, followed by more text, stays one piece. */
  lemma {:induction false} SplitOnPiece(p: string, tail: string, sep: char)
    requires sep !in p
    ensures var t := SplitOn(tail, sep);
      SplitOn(p + tail, sep) == [p + t[0]] + t[1..]
    decreases |p|
  {
    if p == [] {
      var t := SplitOn(tail, sep);
      assert p + tail == tail && p + t[0] == t[0];
      assert t == [t[0]] + t[1..];
    } else {
      assert (p + tail)[0] == p[0] && (p + tail)[1..] == p[1..] + tail;
      SplitOnPiece(p[1..], tail, sep);
      assert [p[0]] + (p[1..] + SplitOn(tail, sep)[0]) == p + SplitOn(tail, sep)[0];
    }
  }

  /** A string without the separator is a single piece. */
  lemma SplitOnFree(s: string, sep: char)
    requires sep !in s
    ensures SplitOn(s, sep) == [s]
  {
    assert SplitOn([], sep) == [[]];
    assert s + [] == s;
    SplitOnPiece(s, [], sep);
  }

  /** Splitting pieces free of the separator, joined by it, gives the pieces
      back. */
  lemma {:induction false} SplitOnJoin(parts: seq<string>, sep: char)
    requires |parts| >= 1
    requires forall i :: 0 <= i < |parts| ==> sep !in parts[i]
    ensures SplitOn(Join([sep], parts), sep) == parts
    decreases |parts|
  {
    if |parts| == 1 {
      SplitOnPiece(parts[0], [], sep);
      assert parts[0] + [] == parts[0];
    } else {
      var tail := Join([sep], parts[1..]);
      SplitOnJoin(parts[1..], sep);
      assert Join([sep], parts) == parts[0] + ([sep] + tail);
      SplitOnPiece(parts[0], [sep] + tail, sep);
      assert ([sep] + tail)[1..] == tail;
      assert SplitOn([sep] + tail, sep) == [[]] + SplitOn(tail, sep);
      assert parts[0] + [] == parts[0];
      assert parts == [parts[0]] + parts[1..];
    }
  }

  /** A character in none of the parts and not the separator is not in the
      joined string. */
  lemma {:induction false} JoinLacks(sep: string, parts: seq<string>, c: char)
    requires c !in sep
    requires forall i :: 0 <= i < |parts| ==> c !in parts[i]
    ensures c !in Join(sep, parts)
    decreases |parts|
  {
    if |parts| > 1 {
      JoinLacks(sep, parts[1..], c);
    }
  }

  /** Every character of `s.strip()` is a character of `s`. */
  lemma StripIn(s: string, c: char)
    requires c in Strip(s)
    ensures c in s
  {
    var i := StripSplits(s);
    var k :| 0 <= k < |Strip(s)| && Strip(s)[k] == c;
    assert s[i + k] == c;
  }

  /** A string with no whitespace at either end is its own `strip()`. */
  lemma StripTrimmed(s: string)
    requires s == [] || (!IsSpace(s[0]) && !IsSpace(s[|s| - 1]))
    ensures Strip(s) == s
  {
  }

  /** `SplitOn` on a string given by its first character. */
  lemma SplitOnCons(c: char, t: string, sep: char)
    ensures SplitOn([c] + t, sep) ==
      if c == sep then [[]] + SplitOn(t, sep) else [[c] + SplitOn(t, sep)[0]] + SplitOn(t, sep)[1..]
  {
    assert ([c] + t)[0] == c && ([c] + t)[1..] == t;
  }

  lemma ConsPieces(c: char, ra: seq<string>, rb: seq<string>)
    requires |ra| >= 1
    ensures [[c] + (ra + rb)[0]] + (ra + rb)[1..] == ([[c] + ra[0]] + ra[1..]) + rb
    ensures [[]] + (ra + rb) == ([[]] + ra) + rb
  {
    assert (ra + rb)[0] == ra[0] && (ra + rb)[1..] == ra[1..] + rb;
  }

  lemma ConsSep(a: string, sep: char, b: string)
    requires a != []
    ensures a + [sep] + b == [a[0]] + (a[1..] + [sep] + b)
    ensures a == [a[0]] + a[1..]
  {
  }

  /** Splitting at a separator splits the two sides independently. */
  lemma {:induction false} SplitOnSep(a: string, b: string, sep: char)
    ensures SplitOn(a + [sep] + b, sep) == SplitOn(a, sep) + SplitOn(b, sep)
    decreases |a|
  {
    if a == [] {
      assert a + [sep] + b == [sep] + b;
      SplitOnCons(sep, b, sep);
    } else {
      ConsSep(a, sep, b);
      SplitOnSep(a[1..], b, sep);
      SplitOnCons(a[0], a[1..] + [sep] + b, sep);
      SplitOnCons(a[0], a[1..], sep);
      ConsPieces(a[0], SplitOn(a[1..], sep), SplitOn(b, sep));
    }
  }
}
