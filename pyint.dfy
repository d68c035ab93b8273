/** Python's built-in `int(value)` for the values requests and stored
    records carry. */
module PyInt {
  import opened Wrappers
  import opened PyValues
  import opened Text

  function DigitValue(c: char): nat
    requires IsDigit(c)
  {
    c as int - '0' as int
  }

  /** The number a string of ASCII digits spells, most significant first. */
  function DigitsValue(s: string): nat
    requires forall k :: 0 <= k < |s| ==> IsDigit(s[k])
  {
    if s == [] then 0 else DigitsValue(s[..|s| - 1]) * 10 + DigitValue(s[|s| - 1])
  }

  /** `int(s)` for a string: surrounding whitespace, an optional sign, then
      at least one digit; anything else raises `ValueError`. */
  function ParseInt(s: string): (r: Result<int>)
    ensures r.Err? ==> r.error == ValueError
  {
    ParseSigned(Strip(s))
  }

  /** The stripped text: a sign, if any, then the digits. */
  function ParseSigned(t: string): (r: Result<int>)
    ensures r.Err? ==> r.error == ValueError
  {
    if t != [] && (t[0] == '-' || t[0] == '+') then
      var body := t[1..];
      if !IsDigitStr(body) then Err(ValueError)
      else if t[0] == '-' then Ok(0 - DigitsValue(body))
      else Ok(DigitsValue(body))
    else if IsDigitStr(t) then Ok(DigitsValue(t))
    else Err(ValueError)
  }

  /** Python's `int(x)` on a float drops the fraction, towards zero. */
  function Truncate(x: real): int {
    if x >= 0.0 then x.Floor else -((-x).Floor)
  }

  /** `int(value)` for the values a JSON body carries: `None` and a list raise
      `TypeError`, a bool is 0 or 1, a float is truncated, a string is
      parsed. */
  function ToInt(v: PyVal): (r: Result<int>)
    ensures v.PInt? ==> r == Ok(v.i)
    ensures v.PNone? || v.PList? ==> r == Err(TypeError)
  {
    match v
    case PNone => Err(TypeError)
    case PBool(b) => Ok(if b then 1 else 0)
    case PInt(i) => Ok(i)
    case PFloat(x) => Ok(Truncate(x))
    case PStr(s) => ParseInt(s)
    case PBytes(bs) => ParseInt(seq(|bs|, k requires 0 <= k < |bs| => bs[k] as char))
    case PList(_) => Err(TypeError)
  }

  lemma {:induction false} DigitsValueOfNat(n: nat)
    ensures DigitsValue(NatToStr(n)) == n
    decreases n
  {
    if n >= 10 {
      DigitsValueOfNat(n / 10);
      var s := NatToStr(n);
      assert s[..|s| - 1] == NatToStr(n / 10);
    }
  }

  /** `int(str(i)) == i`: parsing reads back any rendered integer. */
  lemma ParseIntRoundTrip(i: int)
    ensures ParseInt(IntToStr(i)) == Ok(i)
  {
    var s := IntToStr(i);
    RenderedNoSpace(i);
    StripNoSpace(s);
    assert ParseInt(s) == ParseSigned(s);
    if i < 0 {
      assert s == "-" + NatToStr(-i);
      ParseNegative(-i);
    } else {
      assert s == NatToStr(i);
      ParseNatural(i);
    }
  }

  lemma ParseNatural(n: nat)
    ensures ParseSigned(NatToStr(n)) == Ok(n)
  {
    var s := NatToStr(n);
    assert IsDigit(s[0]);
    assert IsDigitStr(s);
    DigitsValueOfNat(n);
  }

  lemma ParseNegative(n: nat)
    ensures ParseSigned("-" + NatToStr(n)) == Ok(0 - n)
  {
    var s := "-" + NatToStr(n);
    assert s[0] == '-' && s[1..] == NatToStr(n);
    assert IsDigitStr(s[1..]);
    DigitsValueOfNat(n);
  }

  lemma RenderedNoSpace(i: int)
    ensures NoSpace(IntToStr(i))
  {
    var s := IntToStr(i);
    forall k | 0 <= k < |s| ensures !IsSpace(s[k]) {
      if i < 0 && k > 0 {
        assert s[k] == NatToStr(-i)[k - 1];
      }
    }
  }
}
