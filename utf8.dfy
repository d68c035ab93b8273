/** Python's `str.encode('utf-8')` and the strict `bytes.decode('utf-8')`:
    one to four bytes per code point, and a decoder that refuses
    continuation bytes out of place, overlong forms, surrogates and code
    points past U+10FFFF with `UnicodeDecodeError` (a `ValueError`). */
module Utf8 {
  import opened Wrappers
  import opened PyValues

  /** The bytes of one code point. */
  function EncodeChar(c: char): (r: seq<byte>)
    ensures 1 <= |r| <= 4
    ensures (c as int < 0x80) == (|r| == 1)
  {
    var cp := c as int;
    if cp < 0x80 then [cp as byte]
    else if cp < 0x800 then [(0xC0 + cp / 64) as byte, (0x80 + cp % 64) as byte]
    else if cp < 0x10000 then
      [(0xE0 + cp / 4096) as byte, (0x80 + cp / 64 % 64) as byte, (0x80 + cp % 64) as byte]
    else
      [(0xF0 + cp / 262144) as byte, (0x80 + cp / 4096 % 64) as byte, (0x80 + cp / 64 % 64) as byte, (0x80 + cp % 64) as byte]
  }

  /** `s.encode('utf-8')`. */
  function Encode(s: string): (r: seq<byte>)
    ensures |r| >= |s|
  {
    if s == [] then [] else EncodeChar(s[0]) + Encode(s[1..])
  }

  predicate IsCont(b: byte) {
    0x80 <= b as int < 0xC0
  }

  function ContValue(b: byte): int {
    b as int - 0x80
  }

  predicate IsScalar(cp: int) {
    (0 <= cp < 0xD800) || (0xE000 <= cp <= 0x10FFFF)
  }

  /** The code point at the front of `b` and the number of bytes it
      takes, or the decoding error. */
  function DecodeChar(b: seq<byte>): (r: Result<(char, nat)>)
    requires b != []
    ensures r.Ok? ==> 1 <= r.value.1 <= |b|
    ensures r.Err? ==> r.error == ValueError
  {
    var b0 := b[0] as int;
    if b0 < 0x80 then Ok((b0 as char, 1))
    else if 0xC2 <= b0 <= 0xDF then
      if |b| < 2 || !IsCont(b[1]) then Err(ValueError)
      else Ok((((b0 - 0xC0) * 64 + ContValue(b[1])) as char, 2))
    else if 0xE0 <= b0 <= 0xEF then
      if |b| < 3 || !IsCont(b[1]) || !IsCont(b[2]) then Err(ValueError)
      else
        var cp := (b0 - 0xE0) * 4096 + ContValue(b[1]) * 64 + ContValue(b[2]);
        if cp < 0x800 || !IsScalar(cp) then Err(ValueError) else Ok((cp as char, 3))
    else if 0xF0 <= b0 <= 0xF4 then
      if |b| < 4 || !IsCont(b[1]) || !IsCont(b[2]) || !IsCont(b[3]) then Err(ValueError)
      else
        var cp := (b0 - 0xF0) * 262144 + ContValue(b[1]) * 4096 + ContValue(b[2]) * 64 + ContValue(b[3]);
        if cp < 0x10000 || cp > 0x10FFFF then Err(ValueError) else Ok((cp as char, 4))
    else Err(ValueError)
  }

  /** `b.decode('utf-8')`. */
  function Decode(b: seq<byte>): (r: Result<string>)
    ensures r.Err? ==> r.error == ValueError
    decreases |b|
  {
    if b == [] then Ok([])
    else
      var (c, n) :- DecodeChar(b);
      var rest :- Decode(b[n..]);
      Ok([c] + rest)
  }

  /** The decoder reads back each encoded code point, whatever follows it. */
  lemma DecodeEncodeChar(c: char, rest: seq<byte>)
    ensures DecodeChar(EncodeChar(c) + rest) == Ok((c, |EncodeChar(c)|))
  {
    var cp := c as int;
    var e := EncodeChar(c);
    var b := e + rest;
    assert b[..|e|] == e;
    if cp < 0x80 {
    } else if cp < 0x800 {
      TwoBytes(cp);
    } else if cp < 0x10000 {
      ThreeBytes(cp);
    } else {
      FourBytes(cp);
    }
  }

  lemma TwoBytes(cp: int)
    requires 0x80 <= cp < 0x800
    ensures 0xC2 <= 0xC0 + cp / 64 <= 0xDF && 0 <= cp % 64 < 64
    ensures (0xC0 + cp / 64 - 0xC0) * 64 + cp % 64 == cp
  {
  }

  lemma ThreeBytes(cp: int)
    requires 0x800 <= cp < 0x10000
    ensures 0xE0 <= 0xE0 + cp / 4096 <= 0xEF && 0 <= cp / 64 % 64 < 64 && 0 <= cp % 64 < 64
    ensures (0xE0 + cp / 4096 - 0xE0) * 4096 + (cp / 64 % 64) * 64 + cp % 64 == cp
  {
    var d2, r2 := cp / 4096, cp % 4096;
    var d1, d0 := r2 / 64, r2 % 64;
    Div64(cp, d2 * 64 + d1, d0);
    Div64(d2 * 64 + d1, d2, d1);
  }

  lemma FourBytes(cp: int)
    requires 0x10000 <= cp <= 0x10FFFF
    ensures 0xF0 <= 0xF0 + cp / 262144 <= 0xF4 && 0 <= cp / 4096 % 64 < 64 && 0 <= cp / 64 % 64 < 64 && 0 <= cp % 64 < 64
    ensures (0xF0 + cp / 262144 - 0xF0) * 262144 + (cp / 4096 % 64) * 4096 + (cp / 64 % 64) * 64 + cp % 64 == cp
  {
    var d3, r3 := cp / 262144, cp % 262144;
    var d2, r2 := r3 / 4096, r3 % 4096;
    var d1, d0 := r2 / 64, r2 % 64;
    Div4096(cp, d3 * 64 + d2, r2);
    Div64(d3 * 64 + d2, d3, d2);
    Div64(cp, d3 * 4096 + d2 * 64 + d1, d0);
    Div64(d3 * 4096 + d2 * 64 + d1, d3 * 64 + d2, d1);
  }

  /** Euclidean division by 64 is unique. */
  lemma Div64(x: int, q: int, r: int)
    requires x == q * 64 + r && 0 <= r < 64
    ensures x / 64 == q && x % 64 == r
  {
  }

  /** Euclidean division by 4096 is unique. */
  lemma Div4096(x: int, q: int, r: int)
    requires x == q * 4096 + r && 0 <= r < 4096
    ensures x / 4096 == q && x % 4096 == r
  {
  }

  /** `s.encode('utf-8').decode('utf-8') == s` for every string. */
  lemma {:induction false} DecodeEncode(s: string)
    ensures Decode(Encode(s)) == Ok(s)
    decreases |s|
  {
    if s != [] {
      var e := EncodeChar(s[0]);
      DecodeEncodeChar(s[0], Encode(s[1..]));
      assert (e + Encode(s[1..]))[|e|..] == Encode(s[1..]);
      DecodeEncode(s[1..]);
      assert [s[0]] + s[1..] == s;
    }
  }

  /** Encoding distributes over concatenation. */
  lemma {:induction false} EncodeAppend(s: string, t: string)
    ensures Encode(s + t) == Encode(s) + Encode(t)
    decreases |s|
  {
    if s != [] {
      assert (s + t)[0] == s[0] && (s + t)[1..] == s[1..] + t;
      EncodeAppend(s[1..], t);
      calc {
        Encode(s + t);
        EncodeChar(s[0]) + Encode(s[1..] + t);
        EncodeChar(s[0]) + (Encode(s[1..]) + Encode(t));
        (EncodeChar(s[0]) + Encode(s[1..])) + Encode(t);
      }
    } else {
      assert s + t == t;
    }
  }

  predicate IsAscii(s: string) {
    forall k :: 0 <= k < |s| ==> s[k] as int < 0x80
  }

  /** ASCII text is encoded one byte per character, each byte the
      character's code. */
  lemma {:induction false} EncodeAscii(s: string)
    requires IsAscii(s)
    ensures |Encode(s)| == |s| && forall k :: 0 <= k < |s| ==> Encode(s)[k] as int == s[k] as int
    decreases |s|
  {
    if s != [] {
      EncodeAscii(s[1..]);
    }
  }
}
